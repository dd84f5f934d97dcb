/** Preparation and publication as operation lists, and what holds after any number of process
    lives that each stop wherever they stop. */
module ReportRuns {
  import opened Wrappers
  import opened ReportDisk
  import opened ReportRecovery

  function PreparationOps(existed: bool, dryRun: Bytes): seq<Op> {
    [CreateDir, Write(Staged, dryRun), StartJournal(existed)]
  }

  /** The disk that preparation leaves while nobody else writes. */
  function PreparedDisk(target: Option<Bytes>, existed: bool, dryRun: Bytes): Disk {
    Disk(target, Some(Txn(Some(dryRun), None, None, Some(Journal([Record(Some(existed), Prepared)], false)))))
  }

  function BackupOps(target: Option<Bytes>): seq<Op> {
    if target.None? then [AppendPhase(BackingUp)]
    else [Write(Original, target.value), AppendPhase(BackingUp), Rename(Target, Backup)]
  }

  function InstallOps(): seq<Op> {
    [AppendPhase(BackedUp), AppendPhase(Installing), Rename(Staged, Target), AppendPhase(Installed)]
  }

  /** Publication up to, not including, the removal of the transaction. */
  function PublicationMoves(target: Option<Bytes>, report: Bytes): seq<Op> {
    [Write(Staged, report)] + BackupOps(target) + InstallOps()
  }

  /** Publication over `target`, from the restaged report to the removal that commits it. */
  function PublicationOps(target: Option<Bytes>, report: Bytes): seq<Op> {
    PublicationMoves(target, report) + [RemoveDir]
  }

  /** What an observer may find at the target, and what recovery must bring back. */
  datatype Promise = Promise(saved: Option<Bytes>, seen: set<Option<Bytes>>)

  ghost predicate Kept(d: Disk, promise: Promise) {
    Recoverable(d, promise.saved) && d.target in promise.seen
  }

  /** Stopping inside `op` breaks nothing. Only a torn record leaves the journal unclean. */
  ghost predicate SafeTear(d: Disk, op: Op, n: nat, promise: Promise) {
    Kept(Tear(op, n, d), promise) && (op.AppendPhase? || Clean(Tear(op, n, d)))
  }

  /** Stopping anywhere in `ops` keeps the promise. */
  ghost predicate AllSafe(d: Disk, ops: seq<Op>, promise: Promise)
    decreases |ops|
  {
    && Kept(d, promise) && Clean(d)
    && (ops != [] ==>
          && (forall n: nat :: SafeTear(d, ops[0], n, promise))
          && AllSafe(Apply(ops[0], d), ops[1..], promise))
  }

  lemma {:induction false} AllSafeStops(d: Disk, ops: seq<Op>, promise: Promise, k: nat, tear: Option<nat>)
    requires AllSafe(d, ops, promise)
    ensures Kept(TearAt(d, ops, k, tear), promise)
    ensures Kept(StopAt(d, ops, k, tear), promise) && Clean(StopAt(d, ops, k, tear))
    decreases |ops|
  {
    hide Kept, Clean, Tear, Apply;
    if ops == [] {
    } else if k == 0 {
      assert ops[..0] == [];
      if tear.Some? {
        assert SafeTear(d, ops[0], tear.value, promise);
      }
    } else {
      var rest := ops[1..];
      AllSafeStops(Apply(ops[0], d), rest, promise, k - 1, tear);
      var j := if k < |ops| then k else |ops|;
      assert ops[..j] == [ops[0]] + rest[..j - 1];
      RunConcat(d, [ops[0]], rest[..j - 1]);
      RunOne(d, ops[0]);
      assert ops[..|ops|] == ops && rest[..|rest|] == rest;
    }
  }

  lemma SafeCons(d: Disk, op: Op, rest: seq<Op>, promise: Promise)
    requires Kept(d, promise) && Clean(d)
    requires forall n: nat :: SafeTear(d, op, n, promise)
    requires AllSafe(Apply(op, d), rest, promise)
    ensures AllSafe(d, [op] + rest, promise)
    ensures Run(d, [op] + rest) == Run(Apply(op, d), rest)
  {
    hide Kept, Clean, SafeTear, Apply;
    assert ([op] + rest)[1..] == rest;
    RunConcat(d, [op], rest);
    RunOne(d, op);
  }

  lemma SafeLast(d: Disk, op: Op, promise: Promise)
    requires Kept(d, promise) && Clean(d)
    requires forall n: nat :: SafeTear(d, op, n, promise)
    requires Kept(Apply(op, d), promise) && Clean(Apply(op, d))
    ensures AllSafe(d, [op], promise)
    ensures Run(d, [op]) == Apply(op, d)
  {
    hide Kept, Clean, SafeTear, Apply;
    assert AllSafe(Apply(op, d), [], promise);
    SafeCons(d, op, [], promise);
    assert [op] + [] == [op];
  }

  lemma {:induction false} SafeConcat(d: Disk, a: seq<Op>, b: seq<Op>, promise: Promise)
    requires AllSafe(d, a, promise) && AllSafe(Run(d, a), b, promise)
    ensures AllSafe(d, a + b, promise) && Run(d, a + b) == Run(Run(d, a), b)
    decreases |a|
  {
    hide Kept, Clean, SafeTear, Apply;
    RunConcat(d, a, b);
    if a == [] {
      assert a + b == b;
    } else {
      assert a == [a[0]] + a[1..];
      RunConcat(d, [a[0]], a[1..]);
      RunOne(d, a[0]);
      SafeConcat(Apply(a[0], d), a[1..], b, promise);
      assert a + b == [a[0]] + (a[1..] + b);
      SafeCons(d, a[0], a[1..] + b, promise);
    }
  }

  lemma PreparationSafe(target: Option<Bytes>, dryRun: Bytes, promise: Promise)
    requires promise.saved == target && target in promise.seen
    ensures AllSafe(Disk(target, None), PreparationOps(target.Some?, dryRun), promise)
    ensures Run(Disk(target, None), PreparationOps(target.Some?, dryRun)) ==
            PreparedDisk(target, target.Some?, dryRun)
  {
    var ops := PreparationOps(target.Some?, dryRun);
    var d0 := Disk(target, None);
    var d1 := Apply(ops[0], d0);
    var d2 := Apply(ops[1], d1);
    SafeLast(d2, ops[2], promise);
    SafeCons(d1, ops[1], [ops[2]], promise);
    SafeCons(d0, ops[0], [ops[1]] + [ops[2]], promise);
    assert ops == [ops[0]] + ([ops[1]] + [ops[2]]);
  }

  /** A prepared or publishing transaction that still restores the saved report. */
  ghost predicate Midway(d: Disk, promise: Promise, phase: Phase) {
    Kept(d, promise) && Clean(d) && d.txn.Some? && State(d) == Valid(promise.saved.Some?, phase)
  }

  /** Nothing is at the target, and the report that was there is in the backup. */
  predicate Vacated(d: Disk, saved: Option<Bytes>) {
    d.target.None? && (saved.Some? ==> Read(d, Backup) == saved)
  }

  lemma AppendMidway(d: Disk, promise: Promise, from: Phase, to: Phase)
    requires Midway(d, promise, from) && ValidTransition(from, to)
    requires to in {BackingUp, BackedUp, Installing, Installed}
    requires to == BackingUp ==> Read(d, Original) == promise.saved
    requires to == BackedUp ==> Vacated(d, promise.saved)
    ensures var next := Apply(AppendPhase(to), d);
            Midway(next, promise, to) && EqualButJournal(next, d)
    ensures forall n: nat :: SafeTear(d, AppendPhase(to), n, promise)
  {
    AppendReads(ReadTxnJournal(d).value, to);
  }

  lemma BackupSafe(d: Disk, promise: Promise)
    requires Midway(d, promise, Prepared) && Read(d, Original).None? && None in promise.seen
    ensures AllSafe(d, BackupOps(promise.saved), promise)
    ensures var next := Run(d, BackupOps(promise.saved));
            && Midway(next, promise, BackingUp) && Vacated(next, promise.saved)
            && Read(next, Staged) == Read(d, Staged)
  {
    var ops := BackupOps(promise.saved);
    if promise.saved.None? {
      AppendMidway(d, promise, Prepared, BackingUp);
      SafeLast(d, ops[0], promise);
    } else {
      var d1 := Apply(ops[0], d);
      AppendMidway(d1, promise, Prepared, BackingUp);
      var d2 := Apply(ops[1], d1);
      SafeLast(d2, ops[2], promise);
      SafeCons(d1, ops[1], [ops[2]], promise);
      SafeCons(d, ops[0], [ops[1]] + [ops[2]], promise);
      assert ops == [ops[0]] + ([ops[1]] + [ops[2]]);
    }
  }

  lemma InstallRename(d: Disk, promise: Promise)
    requires Midway(d, promise, Installing) && d.target.None? && Read(d, Staged).Some?
    requires Read(d, Staged) in promise.seen
    ensures var next := Apply(Rename(Staged, Target), d);
            Midway(next, promise, Installing) && next.target == Read(d, Staged)
    ensures forall n: nat :: SafeTear(d, Rename(Staged, Target), n, promise)
  {}

  lemma InstallSafe(d: Disk, promise: Promise)
    requires Midway(d, promise, BackingUp) && Vacated(d, promise.saved)
    requires Read(d, Staged).Some? && Read(d, Staged) in promise.seen
    ensures AllSafe(d, InstallOps(), promise)
    ensures var next := Run(d, InstallOps());
            Midway(next, promise, Installed) && next.target == Read(d, Staged)
  {
    hide Kept, Clean, SafeTear, Apply, State, AllSafe, Run;
    var ops := InstallOps();
    AppendMidway(d, promise, BackingUp, BackedUp);
    var d1 := Apply(ops[0], d);
    AppendMidway(d1, promise, BackedUp, Installing);
    var d2 := Apply(ops[1], d1);
    InstallRename(d2, promise);
    var d3 := Apply(ops[2], d2);
    AppendMidway(d3, promise, Installing, Installed);
    SafeLast(d3, ops[3], promise);
    SafeCons(d2, ops[2], [ops[3]], promise);
    SafeCons(d1, ops[1], [ops[2]] + [ops[3]], promise);
    SafeCons(d, ops[0], [ops[1]] + ([ops[2]] + [ops[3]]), promise);
    assert ops == [ops[0]] + ([ops[1]] + ([ops[2]] + [ops[3]]));
  }

  lemma PublicationSafe(d: Disk, promise: Promise, report: Bytes)
    requires Midway(d, promise, Prepared) && Read(d, Original).None?
    requires None in promise.seen && Some(report) in promise.seen
    ensures AllSafe(d, PublicationMoves(promise.saved, report), promise)
    ensures var next := Run(d, PublicationMoves(promise.saved, report));
            Midway(next, promise, Installed) && next.target == Some(report)
  {
    var saved := promise.saved;
    var write := Write(Staged, report);
    var d1 := Apply(write, d);
    assert forall n: nat :: SafeTear(d, write, n, promise);
    SafeLast(d, write, promise);
    BackupSafe(d1, promise);
    InstallSafe(Run(d1, BackupOps(saved)), promise);
    hide Kept, Clean, SafeTear, Apply, State, AllSafe, Run, BackupOps, InstallOps;
    SafeConcat(d, [write], BackupOps(saved), promise);
    SafeConcat(d, [write] + BackupOps(saved), InstallOps(), promise);
  }

  lemma {:induction false} RecoverySafe(d: Disk, promise: Promise)
    requires Kept(d, promise) && Clean(d) && promise.saved in promise.seen && None in promise.seen
    ensures AllSafe(d, RecoveryPlan(d).ops, promise)
    decreases |RecoveryPlan(d).ops|
  {
    var ops := RecoveryPlan(d).ops;
    PlanStep(d, promise.saved);
    if ops == [] {
    } else {
      var next := Apply(ops[0], d);
      RecoveryStepSafe(d, promise);
      RecoverySafe(next, promise);
      SafeCons(d, ops[0], ops[1..], promise);
      assert ops == [ops[0]] + ops[1..];
    }
  }

  lemma RecoveryStepSafe(d: Disk, promise: Promise)
    requires Kept(d, promise) && Clean(d) && promise.saved in promise.seen && None in promise.seen
    requires RecoveryPlan(d).ops != []
    ensures Apply(RecoveryPlan(d).ops[0], d).target in promise.seen
    ensures forall n: nat :: SafeTear(d, RecoveryPlan(d).ops[0], n, promise)
  {}

  lemma TearAtLast(d: Disk, moves: seq<Op>, k: nat, tear: Option<nat>)
    requires k <= |moves|
    ensures TearAt(d, moves + [RemoveDir], k, tear) == TearAt(d, moves, k, tear)
    ensures StopAt(d, moves + [RemoveDir], k, tear) == StopAt(d, moves, k, tear)
  {
    var ops := moves + [RemoveDir];
    assert ops[..k] == moves[..k];
    assert moves[..|moves|] == moves;
  }

  lemma {:induction false} RunKeepsTxn(d: Disk, ops: seq<Op>)
    requires d.txn.Some? && forall i :: 0 <= i < |ops| ==> !ops[i].RemoveDir?
    ensures Run(d, ops).txn.Some?
  {
    if ops == [] {
    } else {
      RunKeepsTxn(d, ops[..|ops| - 1]);
    }
  }

  /** Crash atomicity of preparation: whatever reached the disk, recovery brings back exactly what
      was there. */
  lemma PreparationIsAtomic(target: Option<Bytes>, dryRun: Bytes, k: nat, tear: Option<nat>)
    ensures var d := TearAt(Disk(target, None), PreparationOps(target.Some?, dryRun), k, tear);
            d.target == target && RecoveryPlan(d).ok && Recovered(d) == Disk(target, None)
  {
    var promise := Promise(target, {target});
    PreparationSafe(target, dryRun, promise);
    AllSafeStops(Disk(target, None), PreparationOps(target.Some?, dryRun), promise, k, tear);
    TornRecoveryRestores(TearAt(Disk(target, None), PreparationOps(target.Some?, dryRun), k, tear), target);
  }

  lemma PreparedPublicationSafe(dryRun: Bytes, report: Bytes, promise: Promise)
    requires {promise.saved, None, Some(report)} <= promise.seen
    ensures var d := PreparedDisk(promise.saved, promise.saved.Some?, dryRun);
            var moves := PublicationMoves(promise.saved, report);
            AllSafe(d, moves, promise) && Apply(RemoveDir, Run(d, moves)) == Disk(Some(report), None)
  {
    var d := PreparedDisk(promise.saved, promise.saved.Some?, dryRun);
    assert ReadTxnJournal(d).value.lines[1..] == [];
    PublicationSafe(d, promise, report);
  }

  lemma MovesKeepDirectory(target: Option<Bytes>, report: Bytes)
    ensures forall op :: op in PublicationMoves(target, report) ==> !op.RemoveDir?
  {}

  lemma KeptPromise(d: Disk, promise: Promise)
    requires Kept(d, promise)
    ensures Recoverable(d, promise.saved) && d.target in promise.seen
  {}

  /** Crash atomicity of publication, torn writes and torn records included: as long as the
      transaction directory exists one recovery brings back the old report (or its absence), and
      from its removal on the target is the new one. No third content is ever at the target. */
  lemma PublicationIsAtomic(target: Option<Bytes>, dryRun: Bytes, report: Bytes, k: nat, tear: Option<nat>)
    ensures var ops := PublicationOps(target, report);
            var d := TearAt(PreparedDisk(target, target.Some?, dryRun), ops, k, tear);
            && (d.txn.Some? <==> k < |ops|)
            && (d.txn.Some? ==> RecoveryPlan(d).ok && Recovered(d) == Disk(target, None))
            && (d.txn.None? ==> d == Disk(Some(report), None))
            && d.target in {target, None, Some(report)}
  {
    hide Kept, Recoverable, Clean, AllSafe, RecoveryPlan, PublicationMoves;
    var d0 := PreparedDisk(target, target.Some?, dryRun);
    var promise := Promise(target, {target, None, Some(report)});
    var moves := PublicationMoves(target, report);
    var ops := PublicationOps(target, report);
    PreparedPublicationSafe(dryRun, report, promise);
    AllSafeStops(d0, moves, promise, k, tear);
    var d := TearAt(d0, ops, k, tear);
    if k < |ops| {
      TearAtLast(d0, moves, k, tear);
      MovesKeepDirectory(target, report);
      RunKeepsTxn(d0, moves[..k]);
      assert moves[..|moves|] == moves;
      assert d.txn.Some?;
      KeptPromise(d, promise);
      TornRecoveryRestores(d, target);
    } else {
      RunNext(d0, ops, |moves|);
      assert ops[..|moves|] == moves && ops[..|ops|] == ops;
    }
  }

  /** What a power failure can leave of the first `k` operations when all but the last of them were
      synced: that one is there, or lost in whole or in part. */
  ghost predicate LeftByPowerFailure(start: Disk, ops: seq<Op>, k: nat, d: Disk) {
    && k <= |ops|
    && (d == Run(start, ops[..k]) ||
        exists before: nat, tear: Option<nat> :: before + 1 == k && d == TearAt(start, ops, before, tear))
  }

  /** Power failures during publication, given that each operation is durable before the next begins. */
  lemma PowerFailureIsAtomic(target: Option<Bytes>, dryRun: Bytes, report: Bytes, k: nat, d: Disk)
    requires LeftByPowerFailure(PreparedDisk(target, target.Some?, dryRun), PublicationOps(target, report), k, d)
    ensures d.txn.Some? ==> RecoveryPlan(d).ok && Recovered(d) == Disk(target, None)
    ensures d.txn.None? ==> d == Disk(Some(report), None)
    ensures d.target in {target, None, Some(report)}
  {
    hide Run, RecoveryPlan, PublicationOps, PreparedDisk;
    var start, ops := PreparedDisk(target, target.Some?, dryRun), PublicationOps(target, report);
    if d == Run(start, ops[..k]) {
      assert ops[..|ops|] == ops;
      assert d == TearAt(start, ops, k, None);
      PublicationIsAtomic(target, dryRun, report, k, None);
    } else {
      var before: nat, tear: Option<nat> :| before + 1 == k && d == TearAt(start, ops, before, tear);
      PublicationIsAtomic(target, dryRun, report, before, tear);
    }
  }

  // ---- whole histories ----

  /** One process: it recovers, prepares with the dry-run report, publishes the final one, and is
      gone after `stop` operations, the next write torn or not. */
  datatype Life = Life(dryRun: Bytes, report: Bytes, stop: nat, tear: Option<nat>)

  function LifeMoves(d: Disk, life: Life): seq<Op> {
    var target := Recovered(d).target;
    RecoveryPlan(d).ops + PreparationOps(target.Some?, life.dryRun) + PublicationMoves(target, life.report)
  }

  /** The last operation of a complete life is the removal that commits its report. A life that
      recovery refuses does nothing more. */
  function LifeOps(d: Disk, life: Life): seq<Op> {
    if RecoveryPlan(d).ok then LifeMoves(d, life) + [RemoveDir] else RecoveryPlan(d).ops
  }

  function Next(d: Disk, life: Life): Disk { TearAt(d, LifeOps(d, life), life.stop, life.tear) }

  predicate Commits(d: Disk, life: Life) { RecoveryPlan(d).ok && life.stop >= |LifeOps(d, life)| }

  function After(d: Disk, lives: seq<Life>): Disk {
    if lives == [] then d else Next(After(d, lives[..|lives| - 1]), lives[|lives| - 1])
  }

  /** The report of the last life that reached its commit, or what was there at the start. */
  function Committed(d: Disk, saved: Option<Bytes>, lives: seq<Life>): Option<Bytes> {
    if lives == [] then saved
    else
      var life := lives[|lives| - 1];
      if Commits(After(d, lives[..|lives| - 1]), life) then Some(life.report)
      else Committed(d, saved, lives[..|lives| - 1])
  }

  /** Behind a torn record a life must not stop between the first record that its recovery appends
      and the end of that recovery. */
  predicate Survives(d: Disk, life: Life) {
    var ops := RecoveryPlan(d).ops;
    Clean(d) || life.stop >= |ops| || !Appends(ops[..life.stop])
  }

  predicate AllSurvive(d: Disk, lives: seq<Life>) {
    forall k :: 0 <= k < |lives| ==> Survives(After(d, lives[..k]), lives[k])
  }

  lemma LifeSafe(d: Disk, life: Life, promise: Promise)
    requires Kept(d, promise) && Clean(d)
    requires {promise.saved, None, Some(life.report)} <= promise.seen
    ensures RecoveryPlan(d).ok && AllSafe(d, LifeMoves(d, life), promise)
    ensures Run(d, LifeOps(d, life)) == Disk(Some(life.report), None)
  {
    hide Recoverable, Clean, SafeTear, Apply, State, AllSafe, Run, RecoveryPlan, PublicationMoves, PreparationOps;
    var saved := promise.saved;
    var recovery, preparation := RecoveryPlan(d).ops, PreparationOps(saved.Some?, life.dryRun);
    RecoveryRestores(d, saved);
    RecoverySafe(d, promise);
    PreparationSafe(saved, life.dryRun, promise);
    PreparedPublicationSafe(life.dryRun, life.report, promise);
    SafeConcat(d, recovery, preparation, promise);
    SafeConcat(d, recovery + preparation, PublicationMoves(saved, life.report), promise);
    RunConcat(d, LifeMoves(d, life), [RemoveDir]);
    RunOne(Run(d, LifeMoves(d, life)), RemoveDir);
  }

  lemma CleanLifeKeeps(d: Disk, life: Life, promise: Promise)
    requires Kept(d, promise) && Clean(d)
    requires {promise.saved, None, Some(life.report)} <= promise.seen
    ensures Kept(Next(d, life), promise.(saved := if Commits(d, life) then Some(life.report) else promise.saved))
  {
    var moves := LifeMoves(d, life);
    LifeSafe(d, life, promise);
    if life.stop <= |moves| {
      TearAtLast(d, moves, life.stop, life.tear);
      AllSafeStops(d, moves, promise, life.stop, life.tear);
    }
  }

  lemma TearShift(d: Disk, a: seq<Op>, b: seq<Op>, k: nat, tear: Option<nat>)
    requires k >= |a|
    ensures TearAt(d, a + b, k, tear) == TearAt(Run(d, a), b, k - |a|, tear)
  {
    RunConcat(d, a, b);
    if k < |a + b| {
      assert (a + b)[..k] == a + b[..k - |a|];
      RunConcat(d, a, b[..k - |a|]);
    }
  }

  /** A life that gets through its recovery goes on as if that had happened before it. */
  lemma LifeAfterRecovery(d: Disk, life: Life, saved: Option<Bytes>)
    requires RecoveryPlan(d).ok && Recovered(d) == Disk(saved, None) && life.stop >= |RecoveryPlan(d).ops|
    ensures var later := life.(stop := life.stop - |RecoveryPlan(d).ops|);
            Next(d, life) == Next(Disk(saved, None), later) && (Commits(d, life) <==> Commits(Disk(saved, None), later))
  {
    hide PublicationMoves, PreparationOps, Run, TearAt;
    var settled, recovery := Disk(saved, None), RecoveryPlan(d).ops;
    var later := life.(stop := life.stop - |recovery|);
    SettledPlan(settled);
    var rest := PreparationOps(saved.Some?, life.dryRun) + PublicationMoves(saved, life.report);
    assert LifeMoves(d, life) == recovery + rest;
    assert LifeOps(d, life) == recovery + LifeOps(settled, later);
    TearShift(d, recovery, LifeOps(settled, later), life.stop, life.tear);
  }

  lemma SettledPlan(d: Disk)
    requires d.txn.None?
    ensures RecoveryPlan(d) == Plan([], true) && Recovered(d) == d
  {
    RunNone(d);
  }

  /** A stop inside recovery is a stop of the same run of recovery alone. */
  lemma LifeInRecovery(d: Disk, life: Life)
    requires RecoveryPlan(d).ok && life.stop < |RecoveryPlan(d).ops|
    ensures Next(d, life) == TearAt(d, RecoveryPlan(d).ops, life.stop, life.tear) && !Commits(d, life)
  {
    var ops := RecoveryPlan(d).ops;
    assert LifeOps(d, life)[..life.stop] == ops[..life.stop];
  }

  /** Tearing an operation of a recovery touches nothing but the end of the journal. */
  lemma TornTail(d: Disk, op: Op, n: nat)
    requires d.txn.Some? && (Moves(op) || op == RemoveDir)
    ensures var next := Tear(op, n, d);
            && EqualButJournal(next, d) && Read(next, Original) == Read(d, Original) &&
            Read(next, Backup) == Read(d, Backup)
            && State(next) == State(d)
            && forall saved :: Recoverable(next, saved) <==> Recoverable(d, saved)
  {}

  /** Where a recovery stands that is cut short behind a torn record. */
  lemma TornStopKeeps(d: Disk, promise: Promise, k: nat, tear: Option<nat>)
    requires Kept(d, promise) && !Clean(d) && {promise.saved, None} <= promise.seen
    requires k < |RecoveryPlan(d).ops|
    ensures var ops := RecoveryPlan(d).ops;
            var next := TearAt(d, ops, k, tear);
            && next.target in promise.seen
            && if Appends(ops[..k]) then Refused(next, promise.saved) else Recoverable(next, promise.saved)
  {
    hide Kept, Clean, State, Recoverable, RecoveryPlan, Mended, EqualButJournal, Run, Appends, AllSafe, Moves;
    var ops := RecoveryPlan(d).ops;
    var next := Run(d, ops[..k]);
    KeptPromise(d, promise);
    MendedPlan(d, promise.saved);
    MendedKept(d, promise);
    RecoverySafe(Mended(d), promise);
    AllSafeStops(Mended(d), ops, promise, k, None);
    KeptPromise(Run(Mended(d), ops[..k]), promise);
    RunIgnoresJournal(d, Mended(d), ops[..k]);
    SameTarget(next, Run(Mended(d), ops[..k]));
    TornStopIs(d, promise.saved, k);
    assert TearAt(d, ops, k, None) == next;
    if tear.Some? {
      TornRecoveryRestores(d, promise.saved);
      PlanShape(d);
      TornTail(next, ops[k], tear.value);
      SameTarget(Tear(ops[k], tear.value, next), next);
      SameRefusal(Tear(ops[k], tear.value, next), next, promise.saved);
    }
  }

  /** Nothing accepts the journal any more, but the report is still there. */
  predicate Refused(d: Disk, saved: Option<Bytes>) {
    && d.txn.Some? && State(d) == Invalid && Read(d, Original) == saved && saved in {d.target, Read(d, Backup)}
  }

  lemma MendedKept(d: Disk, promise: Promise)
    requires Kept(d, promise)
    ensures Kept(Mended(d), promise)
  {
    MendedPlan(d, promise.saved);
  }

  lemma SameTarget(a: Disk, b: Disk)
    requires EqualButJournal(a, b)
    ensures a.target == b.target
  {}

  lemma SameRefusal(a: Disk, b: Disk, saved: Option<Bytes>)
    requires EqualButJournal(a, b) && State(a) == State(b) && Read(a, Original) == Read(b, Original)
    requires Read(a, Backup) == Read(b, Backup)
    ensures Refused(a, saved) <==> Refused(b, saved)
  {}

  lemma TornStopIs(d: Disk, saved: Option<Bytes>, k: nat)
    requires Recoverable(d, saved) && !Clean(d) && k < |RecoveryPlan(d).ops|
    ensures var ops := RecoveryPlan(d).ops;
            var next := Run(d, ops[..k]);
            && next.txn.Some? && RecoveryPlan(d).ok && (Moves(ops[k]) || ops[k] == RemoveDir)
            && if Appends(ops[..k]) then Refused(next, saved) else Recoverable(next, saved)
  {
    var ops := RecoveryPlan(d).ops;
    var next := Run(d, ops[..k]);
    TornRecoveryRestores(d, saved);
    PlanShape(d);
    TornRun(d, ops[..k]);
    TornRecoveryRestartsIff(d, saved, k);
    if !Appends(ops[..k]) {
      MendedPlan(d, saved);
      RecoveryResumes(Mended(d), saved, k);
      MendedPlan(next, saved);
    }
  }

  lemma TornLifeKeeps(d: Disk, life: Life, promise: Promise)
    requires Kept(d, promise) && !Clean(d)
    requires {promise.saved, None, Some(life.report)} <= promise.seen
    ensures var next := Next(d, life);
            if Survives(d, life)
            then Kept(next, promise.(saved := if Commits(d, life) then Some(life.report) else promise.saved))
            else Refused(next, promise.saved) && next.target in promise.seen && !Commits(d, life)
  {
    hide Kept, Clean, State, Recoverable, RecoveryPlan, Run, Refused, Next, Commits;
    KeptPromise(d, promise);
    TornRecoveryRestores(d, promise.saved);
    if life.stop >= |RecoveryPlan(d).ops| {
      var settled := Disk(promise.saved, None);
      LifeAfterRecovery(d, life, promise.saved);
      SettledKept(promise);
      CleanLifeKeeps(settled, life.(stop := life.stop - |RecoveryPlan(d).ops|), promise);
    } else {
      LifeInRecovery(d, life);
      TornStopKeeps(d, promise, life.stop, life.tear);
      PromiseKept(Next(d, life), promise);
    }
  }

  lemma SettledKept(promise: Promise)
    requires promise.saved in promise.seen
    ensures Kept(Disk(promise.saved, None), promise) && Clean(Disk(promise.saved, None))
  {}

  lemma PromiseKept(d: Disk, promise: Promise)
    ensures Kept(d, promise) <==> Recoverable(d, promise.saved) && d.target in promise.seen
  {}

  lemma RefusedStays(d: Disk, life: Life, saved: Option<Bytes>)
    requires Refused(d, saved)
    ensures RecoveryPlan(d) == REFUSE && Next(d, life) == d && !Commits(d, life) && Survives(d, life)
  {
    RunNone(d);
  }

  /** Everything that may ever be at the target. */
  function Contents(saved: Option<Bytes>, lives: seq<Life>): set<Option<Bytes>> {
    {saved, None} + set i | 0 <= i < |lives| :: Some(lives[i].report)
  }

  lemma {:induction false} HistoryKeeps(start: Option<Bytes>, lives: seq<Life>, seen: set<Option<Bytes>>)
    requires Contents(start, lives) <= seen
    ensures var d := After(Disk(start, None), lives);
            var saved := Committed(Disk(start, None), start, lives);
            && saved in seen && d.target in seen
            && if AllSurvive(Disk(start, None), lives) then Kept(d, Promise(saved, seen)) else Refused(d, saved)
  {
    hide Kept, Clean, Refused, Survives, Next, Commits, Recoverable;
    var d := Disk(start, None);
    if lives == [] {
      SettledKept(Promise(start, seen));
    } else {
      var k := |lives| - 1;
      ContentsPrefix(start, lives);
      HistoryKeeps(start, lives[..k], seen);
      SurvivePush(d, lives);
      var before, saved := After(d, lives[..k]), Committed(d, start, lives[..k]);
      if !AllSurvive(d, lives[..k]) {
        RefusedStays(before, lives[k], saved);
      } else {
        if Clean(before) {
          CleanLifeKeeps(before, lives[k], Promise(saved, seen));
          CleanSurvives(before, lives[k]);
        } else {
          TornLifeKeeps(before, lives[k], Promise(saved, seen));
        }
        if Survives(before, lives[k]) {
          KeptPromise(After(d, lives), Promise(Committed(d, start, lives), seen));
        }
      }
    }
  }

  lemma CleanSurvives(d: Disk, life: Life)
    requires Clean(d)
    ensures Survives(d, life)
  {}

  lemma ContentsPrefix(start: Option<Bytes>, lives: seq<Life>)
    requires lives != []
    ensures Contents(start, lives[..|lives| - 1]) <= Contents(start, lives)
    ensures Some(lives[|lives| - 1].report) in Contents(start, lives)
  {
    var k := |lives| - 1;
    forall i | 0 <= i < k ensures Some(lives[..k][i].report) in Contents(start, lives) {
      assert lives[..k][i] == lives[i];
    }
  }

  lemma SurvivePush(d: Disk, lives: seq<Life>)
    requires lives != []
    ensures var k := |lives| - 1;
            AllSurvive(d, lives) <==> AllSurvive(d, lives[..k]) && Survives(After(d, lives[..k]), lives[k])
  {
    hide Survives, After;
    var k := |lives| - 1;
    assert forall i :: 0 <= i < k ==> lives[..k][..i] == lives[..i];
  }

  /** Old or new, over every history of processes that each stop wherever they stop, with torn writes
      and torn records. Recovery succeeds if and only if every life survives, and then brings back
      exactly the last committed report; otherwise it refuses and that report is still on the disk.
      The target never holds anything but the first content, nothing, or a report that some life was
      to publish. */
  lemma HistoryIsAtomic(start: Option<Bytes>, lives: seq<Life>)
    ensures var d := After(Disk(start, None), lives);
            var saved := Committed(Disk(start, None), start, lives);
            && (RecoveryPlan(d).ok <==> AllSurvive(Disk(start, None), lives))
            && (RecoveryPlan(d).ok ==> Recovered(d) == Disk(saved, None))
            && (!RecoveryPlan(d).ok ==>
                  RecoveryPlan(d) == REFUSE && Read(d, Original) == saved && saved in {d.target, Read(d, Backup)})
            && {d.target, saved} <= Contents(start, lives)
  {
    hide Kept, Survives, After, Committed, AllSurvive;
    var d, saved := After(Disk(start, None), lives), Committed(Disk(start, None), start, lives);
    var promise := Promise(saved, Contents(start, lives));
    HistoryKeeps(start, lives, Contents(start, lives));
    if AllSurvive(Disk(start, None), lives) {
      KeptPromise(d, promise);
      TornRecoveryRestores(d, saved);
    }
  }

  /** The second life dies while it appends a record, the third between the record it appends behind
      the torn bytes and the end of its recovery: the journal is refused from then on. */
  lemma TornRestartCanFail()
    ensures !RecoveryPlan(After(Disk(Some([]), None), [Life([], [], 7, Some(1)), Life([], [], 1, None)])).ok
  {
    var start := Disk(Some([]), None);
    var first, second := Life([], [], 7, Some(1)), Life([], [], 1, None);
    var d := After(start, [first]);
    assert [first, second][..1] == [first] && [first][..0] == [];
    RunNone(start);
    assert After(start, []) == start;
    assert d == Next(start, first);
    TornBackedUp(start, first);
    var ops := RecoveryPlan(d).ops;
    assert ops[0] == AppendPhase(Restoring) && ops[..1][0].AppendPhase?;
    assert !Survives(After(start, [first, second][..1]), second);
    HistoryIsAtomic(start.target, [first, second]);
  }

  /** A process up to the moment when its predecessor's report is in the backup. */
  lemma BackupStarted(start: Disk)
    requires start == Disk(Some([]), None)
    ensures var journal := Journal([Record(Some(true), Prepared), Record(None, BackingUp)], false);
            Run(start, [CreateDir, Write(Staged, []), StartJournal(true), Write(Staged, [])] + BackupOps(Some([]))) ==
            Disk(None, Some(Txn(Some([]), Some([]), Some([]), Some(journal))))
  {
    hide Run;
    var moves := [CreateDir, Write(Staged, []), StartJournal(true), Write(Staged, [])] + BackupOps(Some([]));
    RunNone(start);
    assert moves[..0] == [] && moves[..7] == moves;
    var d1 := Apply(moves[0], start);
    var d2 := Apply(moves[1], d1);
    var d3 := Apply(moves[2], d2);
    var d4 := Apply(moves[3], d3);
    var d5 := Apply(moves[4], d4);
    var d6 := Apply(moves[5], d5);
    RunNext(start, moves, 0);
    RunNext(start, moves, 1);
    RunNext(start, moves, 2);
    RunNext(start, moves, 3);
    RunNext(start, moves, 4);
    RunNext(start, moves, 5);
    RunNext(start, moves, 6);
    var journal := Journal([Record(Some(true), Prepared), Record(None, BackingUp)], false);
    assert d3 == PreparedDisk(Some([]), true, []);
    assert d5 == Disk(Some([]), Some(Txn(Some([]), None, Some([]), Some(Journal([Record(Some(true), Prepared)],
      false)))));
    assert [Record(Some(true), Prepared)] + [Record(None, BackingUp)] == journal.lines;
    assert d6 == Disk(Some([]), Some(Txn(Some([]), None, Some([]), Some(journal))));
    assert Run(start, moves) == Apply(moves[6], d6);
  }

  lemma TornBackedUp(start: Disk, life: Life)
    requires start == Disk(Some([]), None) && life == Life([], [], 7, Some(1))
    ensures var d := Next(start, life); !Clean(d) && RecoveryPlan(d) == RestorePlan(d, BackingUp, [])
  {
    var backup := BackupOps(Some([]));
    var moves := [CreateDir, Write(Staged, []), StartJournal(true), Write(Staged, [])] + backup;
    RunNone(start);
    var ops := LifeOps(start, life);
    assert RecoveryPlan(start) == Plan([], true);
    assert ops == moves + (InstallOps() + [RemoveDir]);
    assert ops[..7] == moves && ops[7] == AppendPhase(BackedUp);
    var journal := Journal([Record(Some(true), Prepared), Record(None, BackingUp)], false);
    BackupStarted(start);
    assert journal.lines[1..] == [Record(None, BackingUp)] && journal.lines[1..][1..] == [];
    assert Replay(BackingUp, []) == Some(BackingUp);
  }

  predicate TearsRecord(d: Disk, life: Life) {
    life.tear.Some? && life.stop < |LifeOps(d, life)| && LifeOps(d, life)[life.stop].AppendPhase?
  }

  lemma WholeLifeKeeps(d: Disk, life: Life, promise: Promise)
    requires Kept(d, promise) && Clean(d) && !TearsRecord(d, life)
    requires {promise.saved, None, Some(life.report)} <= promise.seen
    ensures Clean(Next(d, life))
  {
    var moves := LifeMoves(d, life);
    LifeSafe(d, life, promise);
    if life.stop <= |moves| {
      TearAtLast(d, moves, life.stop, life.tear);
      AllSafeStops(d, moves, promise, life.stop, life.tear);
    }
  }

  /** As long as records reach the disk whole or not at all, every life survives. */
  lemma {:induction false} WholeRecordsSurvive(start: Option<Bytes>, lives: seq<Life>)
    requires forall k :: 0 <= k < |lives| ==> !TearsRecord(After(Disk(start, None), lives[..k]), lives[k])
    ensures AllSurvive(Disk(start, None), lives) && Clean(After(Disk(start, None), lives))
  {
    hide Kept, Clean, Survives, Next, TearsRecord, Commits, Recoverable, Refused;
    var d := Disk(start, None);
    if lives == [] {
      SettledKept(Promise(start, {start}));
    } else {
      var k := |lives| - 1;
      forall i | 0 <= i < k ensures !TearsRecord(After(d, lives[..k][..i]), lives[..k][i]) {
        assert lives[..k][..i] == lives[..i];
      }
      WholeRecordsSurvive(start, lives[..k]);
      SurvivePush(d, lives);
      ContentsPrefix(start, lives);
      var before, saved := After(d, lives[..k]), Committed(d, start, lives[..k]);
      HistoryKeeps(start, lives[..k], Contents(start, lives));
      WholeLifeKeeps(before, lives[k], Promise(saved, Contents(start, lives)));
      CleanSurvives(before, lives[k]);
    }
  }
}
