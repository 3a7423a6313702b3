/**
 What the slots' journals and control blocks say about the image in them (ecus/base/slot_manager.py): after every
 operation, and along every crash-free run.
 */
module SlotMarks {
  import opened Base
  import opened FlashMemory
  import opened EcuStorage
  import opened EcuBoot
  import opened UpdateLifecycle

  /** How a slot's files end up: journal and control block rewritten if the slot has a flash layout, or nothing. */
  predicate Marks(before: SlotFiles, after: SlotFiles, journal: Option<JournalState>, control: ControlBlock) {
    after == if before.layout.None? then before else before.(journal := journal, control := Some(control))
  }

  predicate Bootable(f: SlotFiles) {
    f.control.Some? && f.control.value.bootable
  }

  /** An inactive slot that is only told so: it stays as bootable as it was. */
  predicate Retired(before: SlotFiles, after: SlotFiles) {
    Marks(before, after, before.journal, ControlBlock(Bootable(before), false, false))
  }

  // ----- the writes of each operation

  lemma ControlMarks(d: Disk, s: Slot, u: ControlUpdate)
    ensures var e, c := After(d, ControlWrites(d, s, u)), Updated(d.Files(s).control, u);
      Marks(d.Files(s), e.Files(s), d.Files(s).journal, c) && e.Files(Other(s)) == d.Files(Other(s))
  {
  }

  lemma JournalMarks(d: Disk, s: Slot, j: JournalState)
    ensures var e := After(d, JournalWrites(d, s, j));
      && e.Files(s) == (if d.Files(s).layout.None? then d.Files(s) else d.Files(s).(journal := Some(j)))
      && e.Files(Other(s)) == d.Files(Other(s))
  {
  }

  /** The last step of every operation: one slot is active, the other is not. */
  lemma ActiveMarks(d: Disk, active: Slot, confirmed: bool)
    ensures var e := After(d, ActiveControlWrites(d, active, confirmed));
      && Marks(d.Files(active), e.Files(active), d.Files(active).journal, ControlBlock(true, confirmed, true))
      && Retired(d.Files(Other(active)), e.Files(Other(active)))
  {
    var first := ControlWrites(d, SlotA, ActiveUpdate(SlotA, active, confirmed));
    var next := After(d, first);
    var second := ControlWrites(next, SlotB, ActiveUpdate(SlotB, active, confirmed));
    AfterBoth(d, first, second);
    ControlMarks(d, SlotA, ActiveUpdate(SlotA, active, confirmed));
    ControlMarks(next, SlotB, ActiveUpdate(SlotB, active, confirmed));
  }

  /** A slot is journaled and becomes the active one. */
  lemma SwitchMarks(d: Disk, saved: Disk, s: Slot, j: JournalState, confirmed: bool)
    requires saved.a == d.a && saved.b == d.b
    ensures var w := [saved] + JournalWrites(saved, s, j);
      var e := After(d, w + ActiveControlWrites(After(d, w), s, confirmed));
      && Marks(d.Files(s), e.Files(s), Some(j), ControlBlock(true, confirmed, true))
      && Retired(d.Files(Other(s)), e.Files(Other(s)))
  {
    var w := [saved] + JournalWrites(saved, s, j);
    AfterBoth(d, w, ActiveControlWrites(After(d, w), s, confirmed));
    AfterBoth(d, [saved], JournalWrites(saved, s, j));
    JournalMarks(saved, s, j);
    ActiveMarks(After(d, w), s, confirmed);
  }

  /** Marking a slot as pending: bootable, and not yet anything else. */
  lemma PendingMarks(d: Disk, s: Slot, version: Version)
    ensures var e := After(d, MarkPendingWrites(d, s, version));
      && Marks(d.Files(s), e.Files(s), d.Files(s).journal, ControlBlock(true, false, false))
      && e.Files(Other(s)) == d.Files(Other(s))
  {
    var saved := d.(slots := MarkedPending(d.slots, s, version));
    AfterBoth(d, [saved], ControlWrites(saved, s, ControlUpdate(Some(true), false, false)));
    ControlMarks(saved, s, ControlUpdate(Some(true), false, false));
  }

  /** A trial boot: the pending slot is active but not confirmed, and its journal says that it was booted. */
  lemma TrialBootMarks(d: Disk)
    requires d.slots.pendingSlot.Some?
    ensures var e, s := After(d, TrialBootWrites(d)), d.slots.pendingSlot.value;
      && Marks(d.Files(s), e.Files(s), Some(BootedPending), ControlBlock(true, false, true))
      && Retired(d.Files(Other(s)), e.Files(Other(s)))
  {
    var w := if d.versions.pendingCommit then BootWrites(d) else [];
    var next := After(d, w);
    AfterBoth(d, w, ActivatePendingWrites(next));
    SwitchMarks(next, next.(slots := Activated(next.slots)), d.slots.pendingSlot.value, BootedPending, false);
  }

  /** A commit: the active slot is confirmed, and nothing is pending or was given up. */
  lemma CommitMarks(d: Disk)
    ensures var e := After(d, CommitPendingWrites(d)).slots;
      && e.confirmedSlot == e.activeSlot == d.slots.activeSlot && e.pendingSlot.None? && e.pendingVersion.None?
      && e.rollbackReason == NoReason && e.bootAttempts == 0
    ensures var e, s := After(d, CommitPendingWrites(d)), d.slots.activeSlot;
      && Marks(d.Files(s), e.Files(s), Some(Confirmed), ControlBlock(true, true, true))
      && Retired(d.Files(Other(s)), e.Files(Other(s)))
  {
    SwitchMarks(d, d.(slots := Committed(d.slots)), d.slots.activeSlot, Confirmed, true);
    CommitShape(d);
  }

  /**
   A rollback rejects the slot that is active, and makes the confirmed one active. From a trial boot that rejects
   the new image and leaves the journal of the confirmed slot alone. Of a version that never booted it is the
   confirmed slot whose journal says "rolled back", and the pending slot stays bootable.
   */
  lemma RollbackMarks(d: Disk, reason: RollbackReason)
    ensures var e, s, c := After(d, RollbackWrites(d, reason)), d.slots.activeSlot, d.slots.confirmedSlot;
      if s != c
      then
        && Marks(d.Files(s), e.Files(s), Some(RolledBack), ControlBlock(false, false, false))
        && Marks(d.Files(c), e.Files(c), d.Files(c).journal, ControlBlock(true, true, true))
      else
        && Marks(d.Files(c), e.Files(c), Some(RolledBack), ControlBlock(true, true, true))
        && Retired(d.Files(Other(c)), e.Files(Other(c)))
  {
    var first := d.(versions := RolledBackVersions(d.versions, reason));
    AfterBoth(d, [first], RollbackPendingWrites(first, reason));
    var s, saved := d.slots.activeSlot, first.(slots := RolledBackSlots(d.slots, reason));
    var w := [saved] + JournalWrites(saved, s, RolledBack);
    AfterBoth(first, [saved], JournalWrites(saved, s, RolledBack));
    JournalMarks(saved, s, RolledBack);
    var rejected := ControlWrites(After(first, w), s, ControlUpdate(Some(false), false, false));
    AfterBoth(first, w, rejected);
    ControlMarks(After(first, w), s, ControlUpdate(Some(false), false, false));
    var v := w + rejected;
    AfterBoth(first, v, ActiveControlWrites(After(first, v), d.slots.confirmedSlot, true));
    ActiveMarks(After(first, v), d.slots.confirmedSlot, true);
  }

  // ----- whole runs

  /**
   The control blocks name the active slot, and no other; it is bootable, and it is marked as confirmed exactly if
   it is the confirmed slot. A slot without a flash layout has no control block to speak of.
   */
  predicate Marked(d: Disk) {
    forall s: Slot | d.Files(s).layout.Some? ::
      && d.Files(s).control.Some?
      && var c := d.Files(s).control.value;
         && (c.active <==> s == d.slots.activeSlot) && (c.active ==> c.bootable)
         && (c.confirmed <==> s == d.slots.activeSlot == d.slots.confirmedSlot)
  }

  /** A step that gives up a version on trial. */
  predicate Rejects(d: Disk, e: Disk) {
    OnTrial(d) && !IsPending(e) && e.slots.confirmedSlot == d.slots.confirmedSlot
  }

  /** What a step does to the marks of the images: who is rejected, confirmed or booted. */
  predicate StepMarks(d: Disk, e: Disk) {
    var s, c := d.slots.activeSlot, d.slots.confirmedSlot;
    && (Rejects(d, e) ==>
          && Marks(d.Files(s), e.Files(s), Some(RolledBack), ControlBlock(false, false, false))
          && Marks(d.Files(c), e.Files(c), d.Files(c).journal, ControlBlock(true, true, true)))
    && (e.slots.confirmedSlot != c ==>
          && Marks(d.Files(s), e.Files(s), Some(Confirmed), ControlBlock(true, true, true))
          && Retired(d.Files(c), e.Files(c)))
    && (e.slots.bootAttempts > d.slots.bootAttempts ==>
          && Marks(d.Files(Other(c)), e.Files(Other(c)), Some(BootedPending), ControlBlock(true, false, true))
          && Retired(d.Files(c), e.Files(c)))
  }

  lemma RebootMarks(d: Disk)
    requires Agree(d) && Marked(d)
    ensures Marked(Rebooted(d)) && StepMarks(d, Rebooted(d))
  {
    RebootEffect(d);
    if ShouldRollback(d) {
      RollbackMarks(d, BootAttemptLimitExceeded);
    } else if IsPending(d) {
      TrialBootMarks(d);
    }
  }

  lemma ValidationMarks(d: Disk, expected: Version)
    requires Agree(d) && Marked(d) && (IsPending(d) ==> expected != d.versions.confirmed)
    ensures Marked(Validated(d, expected)) && StepMarks(d, Validated(d, expected))
  {
    ValidationKeepsAgreement(d, expected);
    if IsPending(d) {
      if d.versions.current == expected {
        var first := d.(versions := ConfirmedAs(d.versions, expected));
        AfterBoth(d, [first], CommitPendingWrites(first));
        CommitMarks(first);
      } else {
        RollbackMarks(d, ValidationFailed);
      }
    }
  }

  lemma StepIsMarked(d: Disk, a: Action, e: Disk)
    requires Agree(d) && Marked(d) && Next(d, a, e)
    ensures Marked(e) && StepMarks(d, e)
  {
    match a
    case Stage(target, payload) =>
    case Reboot => RebootMarks(d);
    case Validate(expected) => ValidationMarks(d, expected);
  }

  lemma NextIsMarked(states: seq<Disk>, actions: seq<Action>, i: nat)
    requires IsRun(states, actions) && i < |actions| && Marked(states[i])
    ensures Marked(states[i + 1]) && StepMarks(states[i], states[i + 1])
  {
    RunsAgree(states, actions, i);
    assert NextAt(states, actions, i);
    StepIsMarked(states[i], actions[i], states[i + 1]);
  }

  lemma {:induction false} RunsAreMarked(states: seq<Disk>, actions: seq<Action>, i: nat)
    requires IsRun(states, actions) && Marked(states[0]) && i < |states|
    ensures Marked(states[i])
  {
    if i > 0 {
      RunsAreMarked(states, actions, i - 1);
      NextIsMarked(states, actions, i - 1);
    }
  }

  /** Along every crash-free run the control blocks are right, and every image is marked as what became of it. */
  lemma RunsStayMarked(states: seq<Disk>, actions: seq<Action>, i: nat)
    requires IsRun(states, actions) && Marked(states[0]) && i < |actions|
    ensures Marked(states[i]) && Marked(states[i + 1]) && StepMarks(states[i], states[i + 1])
  {
    RunsAreMarked(states, actions, i);
    NextIsMarked(states, actions, i);
  }
}
