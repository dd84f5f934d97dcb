/** What may happen to a file operation, and where a run of operations stands when one fails, tears
    or is the last one. */
module ReportSteps {
  import opened Wrappers
  import opened Faults
  import opened ReportDisk
  import opened ReportRecovery
  import opened ReportRuns

  /** What has to reach the medium apart from a file's own name. */
  datatype Place = Parent | Directory | File(slot: Slot) | JournalFile

  /** What must be synced before an operation can no longer be lost. */
  function Places(op: Op): seq<Place> {
    match op
    case CreateDir => [Parent]
    case Write(slot, _) => [File(slot), Directory]
    case StartJournal(_) => [JournalFile, Directory]
    case AppendPhase(_) => [JournalFile, Directory]
    case Rename(_, _) => [Parent, Directory]
    case Remove(_) => [Parent]
    case RemoveDir => [Parent]
  }

  /** What renaming the backup to the target owes until both directories are synced. */
  const RESTORED_PLACES: set<Place> := {Parent, Directory}

  function PlaceSet(places: seq<Place>): set<Place> { set i | 0 <= i < |places| :: places[i] }

  /** The operations that a transaction is made of: the report itself is only renamed and removed. */
  predicate InUse(op: Op) { (op.Write? ==> op.slot != Target) && (op.Remove? ==> op.slot == Target) }

  /** Every name that an operation makes, moves or removes is in a directory that must be synced for it,
      and every file it writes must be synced itself. */
  lemma PlacesCover(op: Op, d: Disk)
    requires InUse(op) && Possible(op, d)
    ensures var next, places := Apply(op, d), Places(op);
            && (next.target != d.target || next.txn.Some? != d.txn.Some? ==> Parent in places)
            && (d.txn.Some? && next.txn.Some? ==>
                  && ((exists slot :: slot != Target && Read(next, slot).Some? != Read(d, slot).Some?) ==>
                        Directory in places)
                  && (ReadTxnJournal(next) != ReadTxnJournal(d) ==> JournalFile in places)
                  && (ReadTxnJournal(next).Some? != ReadTxnJournal(d).Some? ==> Directory in places))
            && (op.Write? ==> File(op.slot) in places && Directory in places)
            && ((exists n :: Tear(op, n, d) != d) ==> exists place :: place in places && Contents(place))
  {
    if op.Write? {
      assert Places(op)[0] == File(op.slot);
    } else if op.StartJournal? || op.AppendPhase? {
      assert Places(op)[0] == JournalFile;
    }
  }

  predicate Contents(place: Place) { place.File? || place.JournalFile? }

  lemma NextPlace(places: seq<Place>, i: nat)
    requires i < |places|
    ensures PlaceSet(places[i..]) - {places[i]} <= PlaceSet(places[i + 1..])
  {
    forall place | place in PlaceSet(places[i..]) && place != places[i] ensures place in PlaceSet(places[i + 1..]) {
      var j :| 0 <= j < |places[i..]| && places[i..][j] == place;
      assert places[i + 1..][j - 1] == place;
    }
  }

  /** `d1` is where `ops` leads from `d0`: to the end, or to where a failure or crash stopped it. */
  ghost predicate Ran(d0: Disk, ops: seq<Op>, status: Status, d1: Disk, whole: bool) {
    if status == Done then d1 == Run(d0, ops)
    else exists k: nat, tear: Option<nat> ::
           k <= |ops| && (whole ==> tear.None?) && d1 == TearAt(d0, ops, k, tear)
  }

  lemma NothingRan(d: Disk, w: World<Place>, whole: bool)
    ensures Ran(d, [], Done, d, whole) && Accounted(w, w, Done, true)
  {
    RunNone(d);
  }

  lemma RanThen(d0: Disk, a: seq<Op>, d1: Disk, b: seq<Op>, status: Status, d2: Disk, whole: bool)
    requires Ran(d0, a, Done, d1, whole) && Ran(d1, b, status, d2, whole)
    ensures Ran(d0, a + b, status, d2, whole)
  {
    RunConcat(d0, a, b);
    if status != Done {
      var k: nat, tear: Option<nat> :| k <= |b| && (whole ==> tear.None?) && d2 == TearAt(d1, b, k, tear);
      assert (a + b)[..|a| + k] == a + b[..k];
      RunConcat(d0, a, b[..k]);
      assert b[..|b|] == b;
      assert d2 == TearAt(d0, a + b, |a| + k, tear);
    }
  }

  lemma RanShort(d0: Disk, a: seq<Op>, b: seq<Op>, status: Status, d1: Disk, whole: bool)
    requires status != Done && Ran(d0, a, status, d1, whole)
    ensures Ran(d0, a + b, status, d1, whole)
  {
    var k: nat, tear: Option<nat> :| k <= |a| && (whole ==> tear.None?) && d1 == TearAt(d0, a, k, tear);
    assert (a + b)[..k] == a[..k] && a[..|a|] == a;
    assert b == [] ==> a + b == a;
    var stop := if k < |a| then tear else None;
    assert d1 == TearAt(d0, a + b, k, stop);
  }

  lemma RanWeaken(d0: Disk, ops: seq<Op>, status: Status, d1: Disk, stronger: bool, whole: bool)
    requires Ran(d0, ops, status, d1, stronger) && (whole ==> stronger)
    ensures Ran(d0, ops, status, d1, whole)
  {}

  lemma RanNothing(d: Disk, ops: seq<Op>, status: Status, whole: bool)
    requires status != Done
    ensures Ran(d, ops, status, d, whole)
  {
    assert ops[..0] == [];
    assert d == TearAt(d, ops, 0, None);
  }

  lemma RanTorn(d: Disk, op: Op, status: Status, n: nat, whole: bool)
    requires status != Done && !whole
    ensures Ran(d, [op], status, Tear(op, n, d), whole)
  {
    assert [op][..0] == [];
    assert Tear(op, n, d) == TearAt(d, [op], 0, Some(n));
  }

  /** A prepared transaction, whatever has happened to the target since. */
  predicate IsPrepared(d: Disk) {
    && d.txn.Some? && State(d).Valid? && Read(d, Staged).Some?
    && d == PreparedDisk(d.target, State(d).existed, Read(d, Staged).value)
  }

  /** The target still exists, or is still absent, as preparation recorded. */
  predicate Unchanged(d: Disk) { State(d) == Valid(d.target.Some?, Prepared) }

  lemma StoppedRecovery(d: Disk, saved: Option<Bytes>, status: Status, next: Disk)
    requires Recoverable(d, saved) && Clean(d)
    requires Ran(d, RecoveryPlan(d).ops, status, next, true)
    ensures Recoverable(next, saved) && Clean(next)
  {
    hide Recoverable, Clean, RecoveryPlan;
    var ops := RecoveryPlan(d).ops;
    assert ops[..|ops|] == ops;
    if status == Done {
      RecoveryResumes(d, saved, |ops|);
    } else {
      var k: nat, tear: Option<nat> :| k <= |ops| && tear.None? && next == TearAt(d, ops, k, tear);
      RecoveryResumes(d, saved, k);
    }
  }

  lemma RecoverableSettled(saved: Option<Bytes>)
    ensures Recoverable(Disk(saved, None), saved) && Clean(Disk(saved, None))
  {}

  /** The report is never lost: the next recovery restores it, or refuses with it still there. */
  ghost predicate Held(d: Disk, saved: Option<Bytes>) { Recoverable(d, saved) || Refused(d, saved) }

  /** Wherever a recovery stops, torn records included. */
  lemma TornRecoveryHolds(d: Disk, saved: Option<Bytes>, status: Status, next: Disk, whole: bool)
    requires Recoverable(d, saved) && Ran(d, RecoveryPlan(d).ops, status, next, whole)
    ensures Held(next, saved)
  {
    hide Recoverable, Clean, RecoveryPlan, Refused, Kept, AllSafe;
    var ops, promise := RecoveryPlan(d).ops, Promise(saved, {saved, None, d.target});
    TornRecoveryRestores(d, saved);
    RecoverableSettled(saved);
    PromiseKept(d, promise);
    if status != Done {
      var k: nat, tear: Option<nat> :| k <= |ops| && next == TearAt(d, ops, k, tear);
      if Clean(d) {
        RecoverySafe(d, promise);
        AllSafeStops(d, ops, promise, k, tear);
      } else if k < |ops| {
        TornStopKeeps(d, promise, k, tear);
      } else {
        assert TearAt(d, ops, |ops|, tear) == Recovered(d);
      }
      PromiseKept(next, promise);
    }
  }

  lemma PreparationAlways(saved: Option<Bytes>, dryRun: Bytes)
    ensures Run(Disk(saved, None), PreparationOps(saved.Some?, dryRun)) ==
            PreparedDisk(saved, saved.Some?, dryRun)
    ensures var d := PreparedDisk(saved, saved.Some?, dryRun); Recoverable(d, saved) && Clean(d)
  {
    var promise := Promise(saved, {saved});
    PreparationSafe(saved, dryRun, promise);
    AllSafeStops(Disk(saved, None), PreparationOps(saved.Some?, dryRun), promise, 3, None);
  }

  lemma StoppedPreparation(saved: Option<Bytes>, dryRun: Bytes, status: Status, d: Disk, whole: bool)
    requires status != Done
    requires Ran(Disk(saved, None), PreparationOps(saved.Some?, dryRun), status, d, whole)
    ensures Recoverable(d, saved) && (whole ==> Clean(d))
  {
    hide Recoverable, Clean, AllSafe, PreparationOps;
    var promise := Promise(saved, {saved});
    var start, ops := Disk(saved, None), PreparationOps(saved.Some?, dryRun);
    PreparationSafe(saved, dryRun, promise);
    var k: nat, tear: Option<nat> :| k <= |ops| && (whole ==> tear.None?) && d == TearAt(start, ops, k, tear);
    AllSafeStops(start, ops, promise, k, tear);
  }

  lemma PreparedFacts(d: Disk, report: Bytes)
    requires IsPrepared(d)
    ensures Read(d, Original).None? && (Ready(d) <==> Unchanged(d))
    ensures Ready(d) ==> Run(d, PublicationOps(d.target, report)) == Disk(Some(report), None)
    ensures !Ready(d) ==> RecoveryPlan(d) == if d.target.None? then REFUSE else Plan([RemoveDir], true)
  {
    if Ready(d) {
      var promise := Promise(d.target, {d.target, None, Some(report)});
      PreparedPublicationSafe(Read(d, Staged).value, report, promise);
      RunConcat(d, PublicationMoves(d.target, report), [RemoveDir]);
      RunOne(Run(d, PublicationMoves(d.target, report)), RemoveDir);
    } else {
      assert ReadTxnJournal(d).value.lines[1..] == [];
    }
  }

  lemma StoppedPublication(d: Disk, report: Bytes, status: Status, next: Disk, whole: bool)
    requires IsPrepared(d) && Unchanged(d) && status != Done
    requires Ran(d, PublicationOps(d.target, report), status, next, whole)
    requires status == Failed ==> Ran(d, PublicationMoves(d.target, report), Failed, next, whole)
    ensures (Recoverable(next, d.target) && (whole ==> Clean(next)))
            || (status == Crashed && next == Disk(Some(report), None))
  {
    PreparedFacts(d, report);
    var promise := Promise(d.target, {d.target, None, Some(report)});
    var moves, ops := PublicationMoves(d.target, report), PublicationOps(d.target, report);
    PreparedPublicationSafe(Read(d, Staged).value, report, promise);
    hide Recoverable, Clean, AllSafe, PublicationMoves, State, Run;
    var k: nat, tear: Option<nat> :|
      k <= |if status == Failed then moves else ops| && (whole ==> tear.None?)
      && next == TearAt(d, if status == Failed then moves else ops, k, tear);
    if k <= |moves| {
      TearAtLast(d, moves, k, tear);
      AllSafeStops(d, moves, promise, k, tear);
    }
  }

  lemma ChangedRecovery(d: Disk, status: Status, next: Disk, whole: bool)
    requires RecoveryPlan(d) == if d.target.None? then REFUSE else Plan([RemoveDir], true)
    requires Ran(d, RecoveryPlan(d).ops, status, next, whole)
    ensures next.target == d.target
    ensures status == Done ==> next == Run(d, RecoveryPlan(d).ops)
    ensures Run(d, [RemoveDir]) == Disk(d.target, None)
  {
    RunOne(d, RemoveDir);
    assert [RemoveDir][..0] == [] && [RemoveDir][..1] == [RemoveDir];
  }

  /** What publication checks before it writes anything. */
  predicate Ready(d: Disk) {
    && d.txn.Some? && State(d) == Valid(d.target.Some?, Prepared)
    && Read(d, Staged).Some? && Read(d, Backup).None?
  }

  lemma BackupEffect(d: Disk)
    requires d.txn.Some?
    ensures var next := Run(d, BackupOps(d.target));
            next.txn.Some? && next.target.None? && Read(next, Staged) == Read(d, Staged)
  {
    var ops := BackupOps(d.target);
    RunOne(d, ops[0]);
    if d.target.Some? {
      RunConcat(d, [ops[0]], [ops[1]]);
      RunOne(Apply(ops[0], d), ops[1]);
      RunConcat(d, [ops[0]] + [ops[1]], [ops[2]]);
      RunOne(Run(d, [ops[0]] + [ops[1]]), ops[2]);
      assert ops == [ops[0]] + [ops[1]] + [ops[2]];
    }
  }

  /** Having run `ops` to the end is one of the places where a failure can strike. */
  lemma RanHere(d0: Disk, ops: seq<Op>, d1: Disk, status: Status, whole: bool)
    requires Ran(d0, ops, Done, d1, whole)
    ensures Ran(d0, ops, status, d1, whole)
  {
    assert d1 == TearAt(d0, ops, |ops|, None);
  }

  lemma PlanEndsInRemoval(d: Disk)
    requires d.txn.Some?
    ensures var plan := RecoveryPlan(d);
            plan.ops == BeforeRemoval(plan) + if plan.ok then [RemoveDir] else []
  {}

  /** An accepted recovery ends with no transaction, whatever disk it started from. */
  lemma RecoveryRemoves(d: Disk)
    requires RecoveryPlan(d).ok
    ensures Recovered(d).txn.None?
  {
    if d.txn.None? {
      RunNone(d);
    } else {
      PlanEndsInRemoval(d);
      var front := BeforeRemoval(RecoveryPlan(d));
      RunConcat(d, front, [RemoveDir]);
      RunOne(Run(d, front), RemoveDir);
    }
  }

  lemma RanDone(d0: Disk, ops: seq<Op>, d1: Disk, whole: bool)
    requires Ran(d0, ops, Done, d1, whole)
    ensures d1 == Run(d0, ops)
  {}

  lemma RanRemoval(d0: Disk, status: Status, d1: Disk, whole: bool)
    requires d1 == if status == Done || d1.txn.None? then d0.(txn := None) else d0
    ensures Ran(d0, [RemoveDir], status, d1, whole)
  {
    RunOne(d0, RemoveDir);
    assert [RemoveDir][..0] == [] && [RemoveDir][..1] == [RemoveDir];
    assert d0 == TearAt(d0, [RemoveDir], 0, None);
    assert Run(d0, [RemoveDir]) == TearAt(d0, [RemoveDir], 1, None);
  }

  /** The record that ends a restoration, written only when the bytes agree. */
  function RestoredRecord(d: Disk): seq<Op> {
    if Read(d, Original) == Read(d, Backup) && Read(d, Backup).Some? then [AppendPhase(Restored)] else []
  }

  /** What a plan does before it removes the transaction directory. */
  function BeforeRemoval(plan: Plan): seq<Op> {
    if plan.ok && plan.ops != [] then plan.ops[..|plan.ops| - 1] else plan.ops
  }

  lemma RestorePlanFront(d: Disk, phase: Phase, backup: Bytes)
    requires Read(d, Backup) == Some(backup)
    ensures BeforeRemoval(RestorePlan(d, phase, backup)) ==
            RestoreMoves(d, phase) + RestoredRecord(d)
    ensures RestorePlan(d, phase, backup).ok <==> Read(d, Original) == Some(backup)
    ensures RestorePlan(d, phase, backup) != REFUSE
  {
    assert [AppendPhase(Restored), RemoveDir] == [AppendPhase(Restored)] + [RemoveDir];
  }

  lemma RestoreMovesEffect(d: Disk, phase: Phase)
    requires d.txn.Some?
    ensures var next := Run(d, RestoreMoves(d, phase));
            && next.txn.Some? && next.target == Read(d, Backup)
            && Read(next, Original) == Read(d, Original)
  {
    hide Run;
    var a := if phase != Restoring then [AppendPhase(Restoring)] else [];
    var b := if d.target.Some? then [Remove(Target)] else [];
    RunNone(d);
    RunOne(d, AppendPhase(Restoring));
    var marked := Run(d, a);
    assert EqualButJournal(d, marked);
    RunNone(marked);
    RunOne(marked, Remove(Target));
    RunConcat(d, a, b);
    var cleared := Run(d, a + b);
    assert cleared.txn == marked.txn;
    RunConcat(d, a + b, [Rename(Backup, Target)]);
    RunOne(cleared, Rename(Backup, Target));
  }

  // ---- what recovery decides, on any disk ----

  /** The journal says that there was a report, and names the phase. */
  predicate Existed(d: Disk, phase: Phase) { d.txn.Some? && State(d) == Valid(true, phase) }

  /** The journal says that there was no report, and names the phase. */
  predicate WasAbsent(d: Disk, phase: Phase) { d.txn.Some? && State(d) == Valid(false, phase) }

  /** With a backup, the original it is compared with must equal it. Without one, the report must still
      be where it was, and equal the original when a restoration had begun. */
  predicate BackupAgrees(d: Disk, phase: Phase) {
    if Read(d, Backup).Some? then
      phase in {BackingUp, BackedUp, Installing, Installed, Restoring} && Read(d, Original) == Read(d, Backup)
    else
      && d.target.Some? && phase in {Prepared, BackingUp, Restoring, Restored}
      && (phase in {Restoring, Restored} ==> Read(d, Original) == d.target)
  }

  /** Whatever is on the disk, recovery succeeds exactly for these: no transaction, one that had not
      written its first record, and one whose files fit the phase that its journal names. */
  lemma RecoveryAcceptsIff(d: Disk)
    ensures RecoveryPlan(d).ok <==>
            || d.txn.None? || State(d).NoRecord?
            || (exists phase :: Existed(d, phase) && BackupAgrees(d, phase))
            || (exists phase :: WasAbsent(d, phase) && phase !in {Restoring, Restored})
  {
    if d.txn.Some? && State(d).Valid? {
      var phase := State(d).phase;
      assert State(d).existed ==> Existed(d, phase);
      assert !State(d).existed ==> WasAbsent(d, phase);
    }
  }

  lemma RestorationLeaves(d: Disk, phase: Phase)
    requires Existed(d, phase) && Read(d, Backup).Some? && RecoveryPlan(d).ok
    ensures Recovered(d) == Disk(Read(d, Backup), None)
  {
    RecoveryRemoves(d);
    RestorePlanFront(d, phase, Read(d, Backup).value);
    RestoreMovesEffect(d, phase);
    var moved := Run(d, RestoreMoves(d, phase));
    RunConcat(d, RestoreMoves(d, phase), [AppendPhase(Restored), RemoveDir]);
    TwoSteps(moved, AppendPhase(Restored), RemoveDir);
    hide State, RestoreMoves, Run;
  }

  lemma KeepingLeaves(d: Disk, phase: Phase)
    requires Existed(d, phase) && Read(d, Backup).None? && RecoveryPlan(d).ok
    ensures Recovered(d) == Disk(d.target, None)
  {
    RunOne(d, RemoveDir);
    TwoSteps(d, AppendPhase(Restored), RemoveDir);
    hide State, Run;
  }

  lemma AbsenceLeaves(d: Disk, phase: Phase)
    requires WasAbsent(d, phase) && RecoveryPlan(d).ok
    ensures Recovered(d) ==
            Disk(if phase in {Installing, Installed} && Read(d, Staged).None? then None else d.target, None)
  {
    RunOne(d, RemoveDir);
    TwoSteps(d, Remove(Target), RemoveDir);
    hide State, Run;
  }

  /** What a successful recovery leaves: the backup if there is one for a report that existed, nothing
      if a first report had been put in place, and the target as it is in every other case. */
  lemma RecoveryLeaves(d: Disk)
    requires RecoveryPlan(d).ok
    ensures Recovered(d) == Disk(
              if (exists phase :: Existed(d, phase)) && Read(d, Backup).Some? then Read(d, Backup)
              else if (WasAbsent(d, Installing) || WasAbsent(d, Installed)) && Read(d, Staged).None? then None
              else d.target,
              None)
  {
    RunNone(d);
    RunOne(d, RemoveDir);
    if d.txn.Some? && State(d).Valid? {
      var phase := State(d).phase;
      if State(d).existed {
        assert Existed(d, phase);
        if Read(d, Backup).Some? {
          RestorationLeaves(d, phase);
        } else {
          KeepingLeaves(d, phase);
        }
      } else {
        assert WasAbsent(d, phase);
        AbsenceLeaves(d, phase);
      }
    }
    hide State, Run, ExistingPlan, AbsentPlan;
  }

  lemma TwoSteps(d: Disk, a: Op, b: Op)
    ensures Run(d, [a, b]) == Apply(b, Apply(a, d))
  {
    assert [a, b] == [a] + [b];
    RunConcat(d, [a], [b]);
    RunOne(d, a);
    RunOne(Apply(a, d), b);
  }

  /** A refused recovery has changed nothing, unless it put a backup in place that then differs from the
      original; the transaction with the original is still there. */
  lemma RefusalLeaves(d: Disk)
    requires !RecoveryPlan(d).ok
    ensures Recovered(d) == d || (
              && Read(d, Backup).Some? && Read(d, Original).Some? && Read(d, Backup) != Read(d, Original)
              && Recovered(d).target == Read(d, Backup)
              && Recovered(d).txn.Some? && Read(Recovered(d), Original) == Read(d, Original))
  {
    RunNone(d);
    if RecoveryPlan(d).ops != [] {
      RestoreMovesEffect(d, State(d).phase);
    }
  }
}
