/** The procedures of `report_file.rs`, step by step against a disk whose every operation may
    fail, tear or be the last one. Each is proved to run a prefix of the operation list that
    ReportRecovery and ReportRuns reason about. */
module ReportFile {
  import opened Wrappers
  import opened Faults
  import opened ReportDisk
  import opened ReportRecovery
  import opened ReportRuns
  import opened ReportSteps

  class ReportFiles {
    var disk: Disk
    var world: World<Place>

    method Next() returns (fate: Fate)
      modifies this`world
      ensures world.owed == old(world.owed) && world.hasty == old(world.hasty)
      ensures fate == NextFate(old(world.fates))
      ensures Calm(old(world.fates)) ==> Calm(world.fates) && fate.Proceed?
      ensures AtMostOneFault(old(world.fates)) ==>
                AtMostOneFault(world.fates) && !fate.Kill? && (fate.Proceed? || Calm(world.fates))
      ensures Whole(old(world.fates)) ==> Whole(world.fates) && (fate.Proceed? || fate.tear.None?)
      ensures Steady(old(world), old(world.owed)) ==> Steady(world, world.owed) && !fate.Fault?
    {
      fate := Proceed;
      if world.fates != [] {
        fate := world.fates[0];
        world := world.(fates := world.fates[1..]);
      }
    }

    /** An operation that takes effect is lost by a power failure until all its places are synced. */
    method Begin(op: Op)
      modifies this`world
      ensures world == old(world).(owed := PlaceSet(Places(op)), hasty := old(world.hasty) || old(world.owed) != {})
    {
      world := world.(owed := PlaceSet(Places(op)), hasty := world.hasty || world.owed != {});
    }

    /** One call into the file system that changes it. */
    method Perform(op: Op) returns (status: Status)
      modifies this
      ensures Ran(old(disk), [op], status, disk, Whole(old(world.fates)))
      ensures Counted(old(world.fates), world.fates, status, Possible(op, old(disk)))
      ensures Settles(old(world), {}, world, PlaceSet(Places(op)), status, Possible(op, old(disk)))
      ensures status == StatusOf(NextFate(old(world.fates)), Possible(op, old(disk)))
      ensures var fate := NextFate(old(world.fates));
              status != Done && Possible(op, old(disk)) && fate.tear.Some? ==>
                disk == Tear(op, fate.tear.value, old(disk))
      ensures status == Done || disk != old(disk) ==>
                world.owed == PlaceSet(Places(op)) && world.hasty == (old(world.hasty) || old(world.owed) != {})
      ensures old(disk).txn.Some? && op != RemoveDir ==> disk.txn.Some?
      ensures status != Done && op == RemoveDir ==> disk == old(disk)
    {
      RunOne(disk, op);
      RanNothing(disk, [op], Failed, Whole(world.fates));
      RanNothing(disk, [op], Crashed, Whole(world.fates));
      var fate := Next();
      if fate.Proceed? {
        status := Failed;
        if Possible(op, disk) {
          disk := Apply(op, disk);
          Begin(op);
          status := Done;
        }
      } else {
        status := if fate.Fault? then Failed else Crashed;
        if fate.tear.Some? && Possible(op, disk) {
          RanTorn(disk, op, status, fate.tear.value, Whole(old(world.fates)));
          disk := Tear(op, fate.tear.value, disk);
          Begin(op);
        }
      }
    }

    /** sync_file or sync_dir: nothing on the disk changes, but the call may fail. */
    method Sync(place: Place) returns (status: Status)
      modifies this`world
      ensures Counted(old(world.fates), world.fates, status, true)
      ensures Settles(old(world), old(world.owed), world, old(world.owed) - {place}, status, true)
      ensures status == StatusOf(NextFate(old(world.fates)), true)
      ensures world.owed == if status == Done then old(world.owed) - {place} else old(world.owed)
    {
      var fate := Next();
      status := match fate case Proceed => Done case Fault(_) => Failed case Kill(_) => Crashed;
      if fate.Proceed? {
        world := world.(owed := world.owed - {place});
      }
    }

    /** Perform `op` and make it durable. */
    method PerformSynced(op: Op) returns (status: Status)
      requires op != RemoveDir
      modifies this
      ensures Ran(old(disk), [op], status, disk, Whole(old(world.fates)))
      ensures Accounted(old(world), world, status, Possible(op, old(disk)))
      ensures old(disk).txn.Some? ==> disk.txn.Some?
    {
      status := Perform(op);
      var places := Places(op);
      var i := 0;
      while status == Done && i < |places|
        invariant 0 <= i <= |places|
        invariant Counted(old(world.fates), world.fates, status, Possible(op, old(disk)))
        invariant Settles(old(world), {}, world, PlaceSet(places[i..]), status, Possible(op, old(disk)))
        invariant Ran(old(disk), [op], status, disk, Whole(old(world.fates)))
        invariant old(disk).txn.Some? ==> disk.txn.Some?
        decreases |places| - i, status == Done
      {
        NextPlace(places, i);
        status := Sync(places[i]);
        assert [op][..1] == [op];
        assert disk == TearAt(old(disk), [op], 1, None);
        i := i + 1;
      }
    }

    /** Read the journal and follow its phases. */
    method ReadPhases() returns (state: JournalState)
      ensures state == State(disk)
    {
      var journal := ReadTxnJournal(disk);
      if journal.None? || journal.value.lines == [] {
        return NoRecord;
      }
      var lines := journal.value.lines;
      if !(lines[0].Record? && lines[0].existed.Some? && lines[0].phase == Prepared) {
        return Invalid;
      }
      var phase := Prepared;
      var i := 1;
      while i < |lines|
        invariant 1 <= i <= |lines|
        invariant Replay(Prepared, lines[1..]) == Replay(phase, lines[i..])
      {
        assert lines[i..][1..] == lines[i + 1..];
        if !(lines[i].Record? && ValidTransition(phase, lines[i].phase)) {
          return Invalid;
        }
        phase := lines[i].phase;
        i := i + 1;
      }
      return Valid(lines[0].existed.value, phase);
    }

    method RemoveTransaction() returns (status: Status)
      modifies this
      ensures status == Done ==> disk == old(disk).(txn := None)
      ensures status == Failed ==> disk == old(disk) && disk.txn.Some?
      ensures status == Crashed ==> disk in {old(disk), old(disk).(txn := None)}
      ensures Accounted(old(world), world, status, true)
    {
      if disk.txn.None? {
        return Done;
      }
      RunOne(disk, RemoveDir);
      status := Perform(RemoveDir);
      if status == Done {
        status := Sync(Parent);
        if status == Failed && disk.txn.None? {
          status := Done;
        }
      }
    }

    // ---- recovery ----

    /** Rolled back once the restored bytes are compared, synced and recorded. */
    method FinishRestoration() returns (status: Status)
      modifies this
      ensures Ran(old(disk), if MatchesOriginal(old(disk)) then [AppendPhase(Restored)] else [], status, disk,
                  Whole(old(world.fates)))
      ensures status == Done ==> MatchesOriginal(old(disk))
      ensures !MatchesOriginal(old(disk)) ==> status == Failed && disk == old(disk)
      ensures Counted(old(world.fates), world.fates, status, MatchesOriginal(old(disk)) && old(disk).txn.Some?)
      ensures Settles(old(world), RESTORED_PLACES, world, {}, status, MatchesOriginal(old(disk)) && old(disk).txn.Some?)
      ensures old(disk).txn.Some? ==> disk.txn.Some?
    {
      ghost var ops := if MatchesOriginal(disk) then [AppendPhase(Restored)] else [];
      RanNothing(disk, ops, Failed, Whole(world.fates));
      RanNothing(disk, ops, Crashed, Whole(world.fates));
      if Read(disk, Original).None? || disk.target.None? || disk.target != Read(disk, Original) {
        return Failed;
      }
      status := Sync(Parent);
      if status == Done {
        status := Sync(Directory);
      }
      if status == Done {
        status := PerformSynced(AppendPhase(Restored));
      }
    }

    method RemoveTarget() returns (status: Status)
      modifies this
      ensures Ran(old(disk), if old(disk).target.Some? then [Remove(Target)] else [], status, disk,
        Whole(old(world.fates)))
      ensures Accounted(old(world), world, status, true)
      ensures old(disk).txn.Some? ==> disk.txn.Some?
    {
      status := Done;
      if disk.target.Some? {
        status := PerformSynced(Remove(Target));
      }
    }

    /** Commit to the rollback, clear the target and put the backup there. */
    method RestoreBackup(phase: Phase) returns (status: Status)
      requires disk.txn.Some? && Read(disk, Backup).Some?
      modifies this
      ensures Ran(old(disk), RestoreMoves(old(disk), phase), status, disk, Whole(old(world.fates)))
      ensures Counted(old(world.fates), world.fates, status, true)
      ensures Settles(old(world), {}, world, RESTORED_PLACES, status, true)
      ensures disk.txn.Some?
    {
      ghost var start, whole := disk, Whole(world.fates);
      ghost var a := if phase != Restoring then [AppendPhase(Restoring)] else [];
      ghost var b := if disk.target.Some? then [Remove(Target)] else [];
      status := Done;
      if phase != Restoring {
        status := PerformSynced(AppendPhase(Restoring));
        RunOne(start, AppendPhase(Restoring));
      }
      ghost var marked := disk;
      if status != Done {
        RanShort(start, a, b + [Rename(Backup, Target)], status, disk, whole);
        assert a + (b + [Rename(Backup, Target)]) == a + b + [Rename(Backup, Target)];
        return;
      }
      status := RemoveTarget();
      RunOne(marked, Remove(Target));
      RanThen(start, a, marked, b, status, disk, whole);
      if status != Done {
        RanShort(start, a + b, [Rename(Backup, Target)], status, disk, whole);
        return;
      }
      ghost var cleared := disk;
      status := Perform(Rename(Backup, Target));
      RanThen(start, a + b, cleared, [Rename(Backup, Target)], status, disk, whole);
    }

    /** Put the backup back, then compare it with the original. */
    method RestoreReport(phase: Phase) returns (status: Status)
      requires disk.txn.Some? && Read(disk, Backup).Some?
      modifies this
      ensures Ran(old(disk), RestoreMoves(old(disk), phase) + RestoredRecord(old(disk)), status, disk,
                  Whole(old(world.fates)))
      ensures status == Done ==> Read(old(disk), Original) == Read(old(disk), Backup)
      ensures Accounted(old(world), world, status, Read(old(disk), Original) == Read(old(disk), Backup))
      ensures disk.txn.Some?
    {
      hide Ran, Run, RestoreMoves;
      ghost var start, whole := disk, Whole(world.fates);
      status := RestoreBackup(phase);
      ghost var restored := disk;
      if status == Done {
        RanDone(start, RestoreMoves(start, phase), restored, whole);
        RestoreMovesEffect(start, phase);
        assert RestoredRecord(start) == if MatchesOriginal(restored) then [AppendPhase(Restored)] else [];
        ghost var wholeRest := Whole(world.fates);
        status := FinishRestoration();
        RanWeaken(restored, RestoredRecord(start), status, disk, wholeRest, whole);
        RanThen(start, RestoreMoves(start, phase), restored, RestoredRecord(start), status, disk, whole);
      } else {
        RanShort(start, RestoreMoves(start, phase), RestoredRecord(start), status, disk, whole);
      }
    }

    method RecoverExistingTarget(phase: Phase) returns (status: Status)
      requires disk.txn.Some?
      modifies this
      ensures Ran(old(disk), BeforeRemoval(ExistingPlan(old(disk), phase)), status, disk, Whole(old(world.fates)))
      ensures status == Done ==> ExistingPlan(old(disk), phase).ok
      ensures ExistingPlan(old(disk), phase) == REFUSE ==> status == Failed && disk == old(disk)
      ensures Accounted(old(world), world, status, ExistingPlan(old(disk), phase).ok)
      ensures disk.txn.Some?
    {
      hide RestorePlan, RestoreMoves, TearAt;
      ghost var start := disk;
      RanNothing(disk, BeforeRemoval(ExistingPlan(disk, phase)), Failed, Whole(world.fates));
      assert [AppendPhase(Restored), RemoveDir][..1] == [AppendPhase(Restored)] && [RemoveDir][..0] == [];
      match (phase, Read(disk, Backup)) {
        case (Restored, None) =>
          status := if MatchesOriginal(disk) then Done else Failed;
        case (Restored, Some(_)) =>
          status := Failed;
        case (Restoring, None) =>
          status := FinishRestoration();
        case (Prepared, Some(_)) =>
          status := Failed;
        case (_, Some(backup)) =>
          if Read(disk, Original).None? { return Failed; }
          RestorePlanFront(start, phase, backup);
          status := RestoreReport(phase);
        case (_, None) =>
          status := if (phase == Prepared || phase == BackingUp) && disk.target.Some? then Done else Failed;
      }
    }

    method RecoverAbsentTarget(phase: Phase) returns (status: Status)
      requires disk.txn.Some?
      modifies this
      ensures Ran(old(disk), BeforeRemoval(AbsentPlan(old(disk), phase)), status, disk, Whole(old(world.fates)))
      ensures status == Done ==> AbsentPlan(old(disk), phase).ok
      ensures AbsentPlan(old(disk), phase) == REFUSE ==> status == Failed && disk == old(disk)
      ensures Accounted(old(world), world, status, AbsentPlan(old(disk), phase).ok)
      ensures disk.txn.Some?
    {
      RanNothing(disk, BeforeRemoval(AbsentPlan(disk, phase)), Failed, Whole(world.fates));
      assert [Remove(Target), RemoveDir][..1] == [Remove(Target)] && [RemoveDir][..0] == [];
      if phase == Restoring || phase == Restored {
        return Failed;
      }
      status := Done;
      if (phase == Installing || phase == Installed) && Read(disk, Staged).None? {
        status := RemoveTarget();
      }
    }

    /** Everything recovery does before it removes the transaction. */
    method Undo(journal: JournalState) returns (status: Status)
      requires disk.txn.Some? && journal == State(disk)
      modifies this
      ensures Ran(old(disk), BeforeRemoval(RecoveryPlan(old(disk))), status, disk, Whole(old(world.fates)))
      ensures status == Done ==> RecoveryPlan(old(disk)).ok
      ensures RecoveryPlan(old(disk)) == REFUSE ==> status == Failed && disk == old(disk)
      ensures Accounted(old(world), world, status, RecoveryPlan(old(disk)).ok)
      ensures disk.txn.Some?
    {
      hide ExistingPlan, AbsentPlan, TearAt;
      RanNothing(disk, BeforeRemoval(RecoveryPlan(disk)), Failed, Whole(world.fates));
      match journal {
        case Invalid =>
          status := Failed;
        case NoRecord =>
          assert [RemoveDir][..0] == [];
          status := Done;
        case Valid(existed, phase) =>
          if existed {
            status := RecoverExistingTarget(phase);
          } else {
            status := RecoverAbsentTarget(phase);
          }
      }
    }

    /** Undo whatever transaction is there. */
    method Recover() returns (status: Status)
      modifies this
      ensures Ran(old(disk), RecoveryPlan(old(disk)).ops, status, disk, Whole(old(world.fates)))
      ensures status == Done ==> RecoveryPlan(old(disk)).ok
      ensures RecoveryPlan(old(disk)) == REFUSE ==> status == Failed && disk == old(disk)
      ensures Accounted(old(world), world, status, RecoveryPlan(old(disk)).ok)
      ensures status == Failed ==> disk.txn.Some?
      ensures old(disk).txn.None? ==> status == Done && disk == old(disk)
    {
      hide Ran, Accounted, BeforeRemoval, State, Whole;
      ghost var start, whole := disk, Whole(world.fates);
      ghost var plan, before := RecoveryPlan(disk), world;
      if disk.txn.None? {
        NothingRan(start, before, whole);
        return Done;
      }
      PlanEndsInRemoval(disk);
      ghost var front := BeforeRemoval(plan);
      var journal := ReadPhases();
      status := Undo(journal);
      if status != Done {
        RanShort(start, front, if plan.ok then [RemoveDir] else [], status, disk, whole);
        return;
      }
      ghost var undone, middle := disk, world;
      status := RemoveTransaction();
      RanRemoval(undone, status, disk, whole);
      RanThen(start, front, undone, [RemoveDir], status, disk, whole);
      AccountedThen(before, middle, world, status, plan.ok, true);
    }

    // ---- publication ----

    /** Snapshot the target and move it to the backup; an absent report is only recorded. */
    method BackUpTarget(existed: bool) returns (status: Status)
      requires disk.txn.Some? && existed == disk.target.Some?
      modifies this
      ensures old(disk).target.None? || Read(old(disk), Original).None? ==>
                Ran(old(disk), BackupOps(old(disk).target), status, disk, Whole(old(world.fates)))
      ensures status == Done ==> old(disk).target.None? || Read(old(disk), Original).None?
      ensures Accounted(old(world), world, status, old(disk).target.None? || Read(old(disk), Original).None?)
      ensures disk.txn.Some?
    {
      ghost var start, whole := disk, Whole(world.fates);
      if !existed {
        status := PerformSynced(AppendPhase(BackingUp));
        return;
      }
      if Read(disk, Original).Some? {
        return Failed;
      }
      var snapshot := Write(Original, disk.target.value);
      status := PerformSynced(snapshot);
      RunOne(start, snapshot);
      ghost var a, b, c := [snapshot], [AppendPhase(BackingUp)], [Rename(Target, Backup)];
      assert BackupOps(start.target) == a + b + c == a + (b + c);
      if status != Done {
        RanShort(start, a, b + c, status, disk, whole);
        return;
      }
      ghost var saved := disk;
      status := PerformSynced(AppendPhase(BackingUp));
      RunOne(saved, AppendPhase(BackingUp));
      RanThen(start, a, saved, b, status, disk, whole);
      if status != Done {
        RanShort(start, a + b, c, status, disk, whole);
        return;
      }
      ghost var marked := disk;
      status := PerformSynced(Rename(Target, Backup));
      RanThen(start, a + b, marked, c, status, disk, whole);
    }

    /** Move the staged report to a target that nobody else filled. */
    method InstallReport() returns (status: Status)
      requires disk.txn.Some? && disk.target.None? && Read(disk, Staged).Some?
      modifies this
      ensures Ran(old(disk), InstallOps(), status, disk, Whole(old(world.fates)))
      ensures Accounted(old(world), world, status, true)
      ensures disk.txn.Some?
    {
      hide Ran, Calm, Whole, AtMostOneFault;
      ghost var start, whole := disk, Whole(world.fates);
      ghost var a, b := [AppendPhase(BackedUp)], [AppendPhase(Installing)];
      ghost var c, e := [Rename(Staged, Target)], [AppendPhase(Installed)];
      assert InstallOps() == a + b + c + e == a + (b + c + e) && a + b + c + e == a + b + (c + e);
      status := PerformSynced(AppendPhase(BackedUp));
      if status != Done {
        RanShort(start, a, b + c + e, status, disk, whole);
        return;
      }
      ghost var d1, whole1 := disk, Whole(world.fates);
      RanDone(start, a, d1, whole);
      RunOne(start, AppendPhase(BackedUp));
      status := PerformSynced(AppendPhase(Installing));
      RanWeaken(d1, b, status, disk, whole1, whole);
      RanThen(start, a, d1, b, status, disk, whole);
      if status != Done {
        RanShort(start, a + b, c + e, status, disk, whole);
        return;
      }
      ghost var d2, whole2 := disk, Whole(world.fates);
      RanDone(d1, b, d2, whole1);
      RunOne(d1, AppendPhase(Installing));
      status := if disk.target.Some? then Failed else Done;
      if status == Done {
        status := PerformSynced(Rename(Staged, Target));
      }
      RanWeaken(d2, c, status, disk, whole2, whole);
      RanThen(start, a + b, d2, c, status, disk, whole);
      if status != Done {
        RanShort(start, a + b + c, e, status, disk, whole);
        return;
      }
      ghost var d3, whole3 := disk, Whole(world.fates);
      status := PerformSynced(AppendPhase(Installed));
      RanWeaken(d3, e, status, disk, whole3, whole);
      RanThen(start, a + b + c, d3, e, status, disk, whole);
    }

    /** The body of publication, up to and including the removal that commits it. */
    method TryPublish(report: Bytes) returns (status: Status)
      requires Read(disk, Original).None?
      modifies this
      ensures !Ready(old(disk)) ==> status == Failed && disk == old(disk) && world == old(world)
      ensures Ready(old(disk)) ==>
                Ran(old(disk), PublicationOps(old(disk).target, report), status, disk, Whole(old(world.fates)))
      ensures Ready(old(disk)) && status == Failed ==>
                Ran(old(disk), PublicationMoves(old(disk).target, report), Failed, disk, Whole(old(world.fates)))
      ensures status == Failed && old(disk).txn.Some? ==> disk.txn.Some?
      ensures Accounted(old(world), world, status, Ready(old(disk)))
    {
      hide Ran, Calm, Whole, AtMostOneFault, BackupOps, InstallOps;
      ghost var start, whole := disk, Whole(world.fates);
      var journal := ReadPhases();
      if !journal.Valid? || journal.phase != Prepared || disk.target.Some? != journal.existed
         || Read(disk, Staged).None? || Read(disk, Backup).Some? {
        return Failed;
      }
      ghost var target := disk.target;
      ghost var a, b, c := [Write(Staged, report)], BackupOps(target), InstallOps();
      ghost var moves := PublicationMoves(target, report);
      assert moves == a + (b + c);
      status := PerformSynced(Write(Staged, report));
      if status != Done {
        RanShort(start, a, b + c, status, disk, whole);
        RanShort(start, moves, [RemoveDir], status, disk, whole);
        return;
      }
      ghost var d1, whole1 := disk, Whole(world.fates);
      RanDone(start, a, d1, whole);
      RunOne(start, Write(Staged, report));
      BackupEffect(d1);
      status := BackUpTarget(journal.existed);
      RanWeaken(d1, b, status, disk, whole1, whole);
      RanThen(start, a, d1, b, status, disk, whole);
      if status != Done {
        RanShort(start, a + b, c, status, disk, whole);
        RanShort(start, moves, [RemoveDir], status, disk, whole);
        return;
      }
      ghost var d2, whole2 := disk, Whole(world.fates);
      RanDone(d1, b, d2, whole1);
      status := InstallReport();
      RanWeaken(d2, c, status, disk, whole2, whole);
      RanThen(start, a + b, d2, c, status, disk, whole);
      if status != Done {
        RanShort(start, moves, [RemoveDir], status, disk, whole);
        return;
      }
      ghost var d3 := disk;
      RanHere(start, moves, d3, Failed, whole);
      status := RemoveTransaction();
      RanRemoval(d3, status, disk, whole);
      RanThen(start, moves, d3, [RemoveDir], status, disk, whole);
    }

    /** Recover a predecessor's transaction, then stage a dry-run report. `saved` names what that
        recovery has to bring back, if the predecessor's disk promises anything. */
    method Prepare(dryRun: Bytes, ghost saved: Option<Bytes>) returns (outcome: Outcome)
      modifies this
      ensures var target := Recovered(old(disk)).target;
              && (outcome == Succeeded ==> disk == PreparedDisk(target, target.Some?, dryRun))
              && (outcome == RolledBack ==> disk == Disk(target, None))
              && (Recoverable(old(disk), saved) ==> target == saved)
      ensures outcome in {NotStarted, RollbackFailed} ==> disk.txn.Some?
      ensures !RecoveryPlan(old(disk)).ok ==> outcome in {NotStarted, Killed}
      ensures RecoveryPlan(old(disk)) == REFUSE ==> outcome == NotStarted && disk == old(disk)
      ensures Calm(old(world.fates)) ==> outcome == if RecoveryPlan(old(disk)).ok then Succeeded else NotStarted
      ensures AtMostOneFault(old(world.fates)) ==>
                outcome in {Succeeded, RolledBack} || (outcome == NotStarted && old(disk).txn.Some?)
      ensures Steady(old(world), {}) ==>
                && !world.hasty && (outcome == Succeeded ==> world.owed == {})
                && (RecoveryPlan(old(disk)).ok ==> outcome in {Succeeded, Killed})
      ensures Recoverable(old(disk), saved) ==> Held(disk, saved)
      ensures Recoverable(old(disk), saved) && Whole(old(world.fates)) && Clean(old(disk)) ==>
                Recoverable(disk, saved) && Clean(disk)
    {
      hide Recoverable, Clean, Ran, Calm, Whole, AtMostOneFault, RecoveryPlan;
      ghost var start, whole, target := disk, Whole(world.fates), Recovered(disk).target;
      var status := Recover();
      if Recoverable(start, saved) {
        TornRecoveryRestores(start, saved);
        TornRecoveryHolds(start, saved, status, disk, whole);
        if status != Done && whole && Clean(start) {
          StoppedRecovery(start, saved, status, disk);
        }
      }
      if status != Done {
        return if status == Failed then NotStarted else Killed;
      }
      RanDone(start, RecoveryPlan(start).ops, disk, whole);
      RecoveryRemoves(start);
      PreparationAlways(target, dryRun);
      RecoverableSettled(target);
      if disk.txn.Some? {
        return NotStarted;
      }
      ghost var wholeStart := Whole(world.fates);
      status := StagePrepared(dryRun);
      RanWeaken(Disk(target, None), PreparationOps(target.Some?, dryRun), status, disk, wholeStart, whole);
      if status == Done {
        RanDone(Disk(target, None), PreparationOps(target.Some?, dryRun), disk, whole);
        return Succeeded;
      }
      ghost var failed, wholeRest := disk, Whole(world.fates);
      StoppedPreparation(target, dryRun, status, failed, whole);
      if status == Crashed {
        return Killed;
      }
      TornRecoveryRestores(failed, target);
      status := Recover();
      outcome := match status case Done => RolledBack case Failed => RollbackFailed case Crashed => Killed;
      TornRecoveryHolds(failed, target, status, disk, wholeRest);
      if status == Done {
        RanDone(failed, RecoveryPlan(failed).ops, disk, wholeRest);
      } else if whole {
        RanWeaken(failed, RecoveryPlan(failed).ops, status, disk, wholeRest, true);
        StoppedRecovery(failed, target, status, disk);
      }
    }

    method StagePrepared(dryRun: Bytes) returns (status: Status)
      requires disk.txn.None?
      modifies this
      ensures Ran(old(disk), PreparationOps(old(disk).target.Some?, dryRun), status, disk, Whole(old(world.fates)))
      ensures Accounted(old(world), world, status, true)
    {
      ghost var start, whole := disk, Whole(world.fates);
      var existed := disk.target.Some?;
      ghost var a, b, c := [CreateDir], [Write(Staged, dryRun)], [StartJournal(existed)];
      assert PreparationOps(existed, dryRun) == a + b + c == a + (b + c);
      RunOne(start, CreateDir);
      status := PerformSynced(CreateDir);
      if status != Done {
        RanShort(start, a, b + c, status, disk, whole);
        return;
      }
      ghost var d1 := disk;
      RunOne(d1, Write(Staged, dryRun));
      status := PerformSynced(Write(Staged, dryRun));
      RanThen(start, a, d1, b, status, disk, whole);
      if status != Done {
        RanShort(start, a + b, c, status, disk, whole);
        return;
      }
      ghost var d2 := disk;
      status := PerformSynced(StartJournal(existed));
      RanThen(start, a + b, d2, c, status, disk, whole);
    }

    /** Replace the report. Another program may have changed the target since preparation. */
    method Publish(report: Bytes) returns (outcome: Outcome)
      requires IsPrepared(disk)
      modifies this
      ensures outcome == Succeeded ==> disk == Disk(Some(report), None)
      ensures outcome == RolledBack ==> disk == Disk(old(disk).target, None)
      ensures outcome == RollbackFailed ==> disk.txn.Some?
      ensures outcome != NotStarted
      ensures Calm(old(world.fates)) ==>
                outcome == if Unchanged(old(disk)) then Succeeded
                           else if old(disk).target.None? then RollbackFailed else RolledBack
      ensures Unchanged(old(disk)) && AtMostOneFault(old(world.fates)) ==> outcome in {Succeeded, RolledBack}
      // while no call fails, each operation is durable before the next begins
      ensures Steady(old(world), {}) ==>
                && !world.hasty && (outcome == Succeeded ==> world.owed == {})
                && (Unchanged(old(disk)) ==> outcome in {Succeeded, Killed})
      ensures !Unchanged(old(disk)) ==> outcome != Succeeded && disk.target == old(disk).target
      ensures Unchanged(old(disk)) && outcome in {RollbackFailed, Killed} ==>
                Held(disk, old(disk).target) || disk == Disk(Some(report), None)
      ensures Unchanged(old(disk)) && Whole(old(world.fates)) && outcome in {RollbackFailed, Killed} ==>
                || (Recoverable(disk, old(disk).target) && Clean(disk))
                || disk == Disk(Some(report), None)
    {
      hide Recoverable, Clean, Ran, Calm, Whole, AtMostOneFault, RecoveryPlan, IsPrepared;
      ghost var start, whole, target := disk, Whole(world.fates), disk.target;
      PreparedFacts(start, report);
      var status := TryPublish(report);
      if status == Done {
        RanDone(start, PublicationOps(target, report), disk, whole);
        return Succeeded;
      }
      ghost var failed, wholeRest := disk, Whole(world.fates);
      if Ready(start) {
        StoppedPublication(start, report, status, failed, whole);
      }
      if status == Crashed {
        return Killed;
      }
      status := Recover();
      outcome := match status case Done => RolledBack case Failed => RollbackFailed case Crashed => Killed;
      if !Ready(start) {
        ChangedRecovery(start, status, disk, wholeRest);
      } else {
        TornRecoveryRestores(failed, target);
        TornRecoveryHolds(failed, target, status, disk, wholeRest);
        if status == Done {
          RanDone(failed, RecoveryPlan(failed).ops, disk, wholeRest);
        } else if whole {
          RanWeaken(failed, RecoveryPlan(failed).ops, status, disk, wholeRest, true);
          StoppedRecovery(failed, target, status, disk);
        }
      }
    }
  }
}
