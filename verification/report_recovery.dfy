/** What recovery does to a disk, as the list of operations it performs and whether it then
    reports success, and the theorems about interrupting it. */
module ReportRecovery {
  import opened Wrappers
  import opened ReportDisk

  datatype Plan = Plan(ops: seq<Op>, ok: bool)

  const REFUSE := Plan([], false)

  function RecoveryPlan(d: Disk): Plan {
    if d.txn.None? then Plan([], true)
    else match State(d)
      case Invalid => REFUSE
      case NoRecord => Plan([RemoveDir], true)
      case Valid(true, phase) => ExistingPlan(d, phase)
      case Valid(false, phase) => AbsentPlan(d, phase)
  }

  predicate MatchesOriginal(d: Disk) {
    d.target.Some? && Read(d, Original) == d.target
  }

  function ExistingPlan(d: Disk, phase: Phase): Plan {
    match (phase, Read(d, Backup))
    case (Restored, None) => if MatchesOriginal(d) then Plan([RemoveDir], true) else REFUSE
    case (Restored, Some(_)) => REFUSE
    case (Restoring, None) =>
      if MatchesOriginal(d) then Plan([AppendPhase(Restored), RemoveDir], true) else REFUSE
    case (Prepared, Some(_)) => REFUSE
    case (_, Some(backup)) => if Read(d, Original).None? then REFUSE else RestorePlan(d, phase, backup)
    case (_, None) =>
      if (phase == Prepared || phase == BackingUp) && d.target.Some? then Plan([RemoveDir], true) else REFUSE
  }

  function RestoreMoves(d: Disk, phase: Phase): seq<Op> {
    (if phase != Restoring then [AppendPhase(Restoring)] else []) +
    (if d.target.Some? then [Remove(Target)] else []) + [Rename(Backup, Target)]
  }

  /** Put the backup back. The restored bytes are compared with the original only afterwards. */
  function RestorePlan(d: Disk, phase: Phase, backup: Bytes): Plan {
    var moves := RestoreMoves(d, phase);
    if Read(d, Original) == Some(backup) then Plan(moves + [AppendPhase(Restored), RemoveDir], true)
    else Plan(moves, false)
  }

  function AbsentPlan(d: Disk, phase: Phase): Plan {
    if phase == Restoring || phase == Restored then REFUSE
    else if (phase == Installing || phase == Installed) && Read(d, Staged).None? && d.target.Some?
    then Plan([Remove(Target), RemoveDir], true)
    else Plan([RemoveDir], true)
  }

  /** Every disk that a crash can leave while the report to restore is `saved` (None: no report). */
  ghost predicate Recoverable(d: Disk, saved: Option<Bytes>) {
    if d.txn.None? then d.target == saved
    else match State(d)
      case NoRecord => d.target == saved
      case Invalid => false
      case Valid(true, phase) => saved.Some? && ExistingHolds(d, phase, saved)
      case Valid(false, phase) => saved.None? && AbsentHolds(d, phase)
  }

  ghost predicate ExistingHolds(d: Disk, phase: Phase, saved: Option<Bytes>) {
    var backup := Read(d, Backup);
    && (phase != Prepared ==> Read(d, Original) == saved)
    && (backup.Some? ==> backup == saved && phase != Prepared && phase != Restored)
    && (backup.Some? && (phase == BackingUp || phase == BackedUp) ==> d.target.None?)
    && (backup.None? ==> d.target == saved && phase != BackedUp && phase != Installing && phase != Installed)
  }

  ghost predicate AbsentHolds(d: Disk, phase: Phase) {
    match phase
    case Prepared => d.target.None?
    case BackingUp => d.target.None?
    case BackedUp => d.target.None?
    case Restoring => false
    case Restored => false
    case _ => Read(d, Staged).Some? ==> d.target.None?
  }

  /** No torn record tail follows the complete lines. */
  predicate Clean(d: Disk) {
    ReadTxnJournal(d).Some? && ReadTxnJournal(d).value.lines != [] ==> !ReadTxnJournal(d).value.torn
  }

  /** The disk after a complete recovery. */
  function Recovered(d: Disk): Disk { Run(d, RecoveryPlan(d).ops) }

  lemma PlanStep(d: Disk, saved: Option<Bytes>)
    requires Recoverable(d, saved) && Clean(d)
    ensures RecoveryPlan(d).ok
    ensures RecoveryPlan(d).ops == [] ==> d == Disk(saved, None)
    ensures RecoveryPlan(d).ops != [] ==>
              var next := Apply(RecoveryPlan(d).ops[0], d);
              Recoverable(next, saved) && Clean(next) && RecoveryPlan(next) == Plan(RecoveryPlan(d).ops[1..], true)
  {
    if d.txn.Some? && State(d).Valid? && State(d).existed && Read(d, Backup).Some? {
      RestoreStep(d, saved);
    } else {
      var ops := RecoveryPlan(d).ops;
      if ops != [] && ops[0].AppendPhase? {
        AppendReads(ReadTxnJournal(d).value, ops[0].phase);
      }
    }
  }

  lemma RestoreStep(d: Disk, saved: Option<Bytes>)
    requires Recoverable(d, saved) && Clean(d)
    requires d.txn.Some? && State(d).Valid? && State(d).existed && Read(d, Backup).Some?
    ensures RecoveryPlan(d).ok && RecoveryPlan(d).ops != []
    ensures var next := Apply(RecoveryPlan(d).ops[0], d);
            Recoverable(next, saved) && Clean(next) && RecoveryPlan(next) == Plan(RecoveryPlan(d).ops[1..], true)
  {
    var ops := RecoveryPlan(d).ops;
    if State(d).phase != Restoring {
      AppendReads(ReadTxnJournal(d).value, Restoring);
    }
  }

  /** Stopped after any number of its operations, recovery starts over with exactly the operations
      that were left. */
  lemma {:induction false} RecoveryResumes(d: Disk, saved: Option<Bytes>, k: nat)
    requires Recoverable(d, saved) && Clean(d)
    requires k <= |RecoveryPlan(d).ops|
    ensures RecoveryPlan(d).ok
    ensures var next := Run(d, RecoveryPlan(d).ops[..k]);
            Recoverable(next, saved) && Clean(next) && RecoveryPlan(next) == Plan(RecoveryPlan(d).ops[k..], true)
  {
    var ops := RecoveryPlan(d).ops;
    PlanStep(d, saved);
    if k == 0 {
    } else {
      RecoveryResumes(d, saved, k - 1);
      var before := Run(d, ops[..k - 1]);
      PlanStep(before, saved);
      RunNext(d, ops, k - 1);
      assert ops[k - 1..][1..] == ops[k..];
      assert ops[k - 1..][0] == ops[k - 1];
    }
  }

  /** The disk after recoveries that are cut short one after another, the i-th after stops[i]
      operations. */
  function Restarted(d: Disk, stops: seq<nat>): Disk {
    if stops == [] then d
    else
      var last := |stops| - 1;
      var before := Restarted(d, stops[..last]);
      var ops := RecoveryPlan(before).ops;
      Run(before, ops[..if stops[last] < |ops| then stops[last] else |ops|])
  }

  /** Recovery is restartable. However often it is cut short, no journal it leaves is refused, what
      is left to do is a suffix of what was left before, and completing it once restores `saved`. */
  lemma {:induction false} RecoveryIsRestartable(d: Disk, saved: Option<Bytes>, stops: seq<nat>)
    requires Recoverable(d, saved) && Clean(d)
    ensures var last := Restarted(d, stops);
            && Recoverable(last, saved) && Clean(last)
            && RecoveryPlan(last).ok && Recovered(last) == Disk(saved, None)
            && |RecoveryPlan(last).ops| <= |RecoveryPlan(d).ops|
            && RecoveryPlan(last).ops == RecoveryPlan(d).ops[|RecoveryPlan(d).ops| - |RecoveryPlan(last).ops|..]
  {
    hide RecoveryPlan, Recoverable, Clean, State, Run;
    if stops == [] {
      RecoveryRestores(d, saved);
      assert RecoveryPlan(d).ops == RecoveryPlan(d).ops[0..];
    } else {
      var before := Restarted(d, stops[..|stops| - 1]);
      RecoveryIsRestartable(d, saved, stops[..|stops| - 1]);
      var ops := RecoveryPlan(before).ops;
      var k := if stops[|stops| - 1] < |ops| then stops[|stops| - 1] else |ops|;
      RecoveryResumes(before, saved, k);
      RecoveryRestores(Restarted(d, stops), saved);
    }
  }

  lemma RecoveryRestores(d: Disk, saved: Option<Bytes>)
    requires Recoverable(d, saved) && Clean(d)
    ensures RecoveryPlan(d).ok && Recovered(d) == Disk(saved, None)
  {
    var ops := RecoveryPlan(d).ops;
    RecoveryResumes(d, saved, |ops|);
    assert ops[..|ops|] == ops;
    PlanStep(Recovered(d), saved);
  }

  /** A second complete recovery has nothing to do. */
  lemma RecoveryIsIdempotent(d: Disk, saved: Option<Bytes>)
    requires Recoverable(d, saved)
    ensures RecoveryPlan(Recovered(d)) == Plan([], true)
  {
    TornRecoveryRestores(d, saved);
  }

  // ---- torn journal records ----

  /** The same disk without its torn tail. */
  function Mended(d: Disk): Disk {
    if ReadTxnJournal(d).None? then d
    else StoreJournal(d, ReadTxnJournal(d).value.(torn := false))
  }

  predicate EqualButJournal(a: Disk, b: Disk) {
    && a.target == b.target
    && (a.txn.Some? <==> b.txn.Some?)
    && (a.txn.Some? ==> a.txn.value.(journal := None) == b.txn.value.(journal := None))
  }

  lemma MendedPlan(d: Disk, saved: Option<Bytes>)
    ensures RecoveryPlan(Mended(d)) == RecoveryPlan(d)
    ensures Recoverable(Mended(d), saved) <==> Recoverable(d, saved)
    ensures Clean(Mended(d)) && EqualButJournal(d, Mended(d))
  {}

  lemma ApplyIgnoresJournal(a: Disk, b: Disk, op: Op)
    requires EqualButJournal(a, b)
    ensures EqualButJournal(Apply(op, a), Apply(op, b))
  {}

  lemma {:induction false} RunIgnoresJournal(a: Disk, b: Disk, ops: seq<Op>)
    requires EqualButJournal(a, b)
    ensures EqualButJournal(Run(a, ops), Run(b, ops))
  {
    hide EqualButJournal, Apply;
    if ops == [] {
    } else {
      var k := |ops| - 1;
      RunIgnoresJournal(a, b, ops[..k]);
      ApplyIgnoresJournal(Run(a, ops[..k]), Run(b, ops[..k]), ops[k]);
    }
  }

  /** One uninterrupted recovery restores the report even behind a torn record. */
  lemma TornRecoveryRestores(d: Disk, saved: Option<Bytes>)
    requires Recoverable(d, saved)
    ensures RecoveryPlan(d).ok && Recovered(d) == Disk(saved, None)
  {
    MendedPlan(d, saved);
    RecoveryRestores(Mended(d), saved);
    RunIgnoresJournal(d, Mended(d), RecoveryPlan(d).ops);
  }

  predicate Appends(ops: seq<Op>) {
    exists i :: 0 <= i < |ops| && ops[i].AppendPhase?
  }

  predicate Moves(op: Op) {
    op.AppendPhase? || op == Remove(Target) || op == Rename(Backup, Target)
  }

  /** An accepted plan moves reports and appends records, then removes the directory. */
  lemma PlanShape(d: Disk)
    requires RecoveryPlan(d).ok
    ensures var ops := RecoveryPlan(d).ops;
            forall i :: 0 <= i < |ops| - 1 ==> Moves(ops[i])
    ensures Appends(RecoveryPlan(d).ops) ==> State(d).Valid? && State(d).existed && State(d).phase != Prepared
  {}

  lemma TornStep(d: Disk, op: Op)
    requires d.txn.Some? && Moves(op)
    ensures Apply(op, d).txn.Some? && Read(Apply(op, d), Original) == Read(d, Original)
    ensures State(d) == Invalid || (!Clean(d) && op.AppendPhase?) ==> State(Apply(op, d)) == Invalid
    ensures !Clean(d) && !op.AppendPhase? ==>
              Mended(Apply(op, d)) == Apply(op, Mended(d)) && !Clean(Apply(op, d))
  {
    if op.AppendPhase? && ReadTxnJournal(d).Some? && ReadTxnJournal(d).value.lines != [] {
      AppendReads(ReadTxnJournal(d).value, op.phase);
    }
  }

  lemma {:induction false} TornRun(d: Disk, ops: seq<Op>)
    requires d.txn.Some? && !Clean(d)
    requires forall i :: 0 <= i < |ops| ==> Moves(ops[i])
    ensures var next := Run(d, ops);
            && next.txn.Some? && Read(next, Original) == Read(d, Original)
            && if Appends(ops) then State(next) == Invalid
            else !Clean(next) && Mended(next) == Run(Mended(d), ops)
  {
    hide Clean, State, Mended, Read, Apply, Moves;
    if ops == [] {
    } else {
      var k := |ops| - 1;
      TornRun(d, ops[..k]);
      TornStep(Run(d, ops[..k]), ops[k]);
      assert ops == ops[..k] + [ops[k]];
    }
  }

  /** Restarting behind a torn record. Recovery appends its own record behind the torn bytes, so
      once it has done so an interruption is final: the next recovery is accepted if and only if no
      record was appended yet or the transaction is already gone. A refused disk still holds the
      report, at the target or in the backup. */
  lemma TornRecoveryRestartsIff(d: Disk, saved: Option<Bytes>, k: nat)
    requires Recoverable(d, saved) && !Clean(d)
    requires k <= |RecoveryPlan(d).ops|
    ensures var ops := RecoveryPlan(d).ops;
            var next := Run(d, ops[..k]);
            && (RecoveryPlan(next).ok <==> k == |ops| || !Appends(ops[..k]))
            && (RecoveryPlan(next).ok ==> Recovered(next) == Disk(saved, None))
            && (!RecoveryPlan(next).ok ==>
                  RecoveryPlan(next) == REFUSE && Read(next, Original) == saved &&
                  saved in {next.target, Read(next, Backup)})
  {
    var ops := RecoveryPlan(d).ops;
    var next := Run(d, ops[..k]);
    TornRecoveryRestores(d, saved);
    if k == |ops| {
      assert ops[..k] == ops;
      RecoveryIsIdempotent(d, saved);
    } else {
      PlanShape(d);
      TornRun(d, ops[..k]);
      MendedPlan(d, saved);
      var mended := Run(Mended(d), ops[..k]);
      RecoveryResumes(Mended(d), saved, k);
      RunIgnoresJournal(d, Mended(d), ops[..k]);
      if Appends(ops[..k]) {
        assert Appends(ops) by {
          var i :| 0 <= i < k && ops[..k][i].AppendPhase?;
          assert ops[i].AppendPhase?;
        }
        HoldsReport(mended, saved);
      } else {
        MendedPlan(next, saved);
        TornRecoveryRestores(next, saved);
      }
    }
  }

  lemma HoldsReport(d: Disk, saved: Option<Bytes>)
    requires Recoverable(d, saved) && saved.Some?
    ensures saved in {d.target, Read(d, Backup)}
  {}

  // ---- directory removal that stops half way ----

  /** `half` is `d` with some files of its transaction directory already removed. */
  predicate HalfRemoved(d: Disk, half: Disk) {
    && half.target == d.target && d.txn.Some? && half.txn.Some?
    && Read(half, Staged) in {None, Read(d, Staged)}
    && Read(half, Backup) in {None, Read(d, Backup)}
    && Read(half, Original) in {None, Read(d, Original)}
    && ReadTxnJournal(half) in {None, ReadTxnJournal(d)}
  }

  /** Removal at the end of a recovery: refused if and only if a Restored journal outlives the
      original artifact it must be compared with. The report is back at the target either way. */
  lemma HalfRemovedAfterRecovery(d: Disk, half: Disk, saved: Option<Bytes>)
    requires Recoverable(d, saved) && RecoveryPlan(d).ops == [RemoveDir] && HalfRemoved(d, half)
    ensures d.target == saved && half.target == saved
    ensures RecoveryPlan(half).ok <==>
            !(State(half) == Valid(true, Restored) && Read(half, Original).None?)
    ensures RecoveryPlan(half).ok ==> Recovered(half) == Disk(saved, None)
  {
    RunOne(half, RemoveDir);
    RunOne(d, RemoveDir);
    TornRecoveryRestores(d, saved);
  }

  /** Removal that commits a publication over an existing report: a half-removed transaction is
      refused if and only if the journal outlives the backup or the original. Otherwise it is
      rolled back when the journal is left and committed when it is gone. */
  lemma HalfRemovedAfterInstall(d: Disk, half: Disk, saved: Option<Bytes>)
    requires Recoverable(d, saved) && d.txn.Some? && State(d) == Valid(true, Installed)
    requires Clean(d) && HalfRemoved(d, half)
    ensures RecoveryPlan(half).ok <==>
            ReadTxnJournal(half).None? || (Read(half, Backup).Some? && Read(half, Original).Some?)
    ensures RecoveryPlan(half).ok ==>
              Recovered(half) == Disk(if ReadTxnJournal(half).Some? then saved else d.target, None)
  {
    if ReadTxnJournal(half).None? {
      RunOne(half, RemoveDir);
    } else if RecoveryPlan(half).ok {
      assert Recoverable(half, saved);
      RecoveryRestores(half, saved);
    }
  }

  /** Removal that commits a publication where no report was: a half-removed transaction is never
      refused, and is rolled back when the journal is left and committed when it is gone. */
  lemma HalfRemovedAfterFirstInstall(d: Disk, half: Disk)
    requires Recoverable(d, None) && d.txn.Some? && State(d) == Valid(false, Installed)
    requires Clean(d) && HalfRemoved(d, half)
    ensures RecoveryPlan(half).ok
    ensures Recovered(half) == Disk(if ReadTxnJournal(half).Some? then None else d.target, None)
  {
    if ReadTxnJournal(half).None? {
      RunOne(half, RemoveDir);
    } else if half.target.None? {
      RunOne(half, RemoveDir);
    } else {
      assert Read(d, Staged).None? && State(half) == State(d);
      assert RecoveryPlan(half).ops == [Remove(Target)] + [RemoveDir];
      RunConcat(half, [Remove(Target)], [RemoveDir]);
      RunOne(half, Remove(Target));
      RunOne(Apply(Remove(Target), half), RemoveDir);
    }
  }

  /** A published transaction whose backup went first: the journal is left and recovery refuses. */
  lemma HalfRemovedCanBeRefused()
    ensures exists d: Disk, half: Disk ::
              && Recoverable(d, Some([])) && d.txn.Some? && State(d) == Valid(true, Installed) && Clean(d)
              && HalfRemoved(d, half) && RecoveryPlan(half) == REFUSE
  {
    var rest := [Record(None, BackingUp), Record(None, BackedUp), Record(None, Installing), Record(None, Installed)];
    var journal := Journal([Record(Some(true), Prepared)] + rest, false);
    assert journal.lines[1..] == rest;
    assert rest[1..][1..][1..][1..] == [];
    var d := Disk(Some([1]), Some(Txn(None, Some([]), Some([]), Some(journal))));
    var half := Disk(Some([1]), Some(Txn(None, None, Some([]), Some(journal))));
    assert Replay(Prepared, rest) == Some(Installed);
    assert HalfRemoved(d, half);
  }
}
