/** Replacing many files under one journal, `state/transaction.rs`, step by step against a disk whose
    every operation may fail, tear or be the last one. */
module PullTransaction {
  import opened Wrappers
  import opened Faults
  import opened PullDisk

  datatype StagedFile = StagedFile(path: string, bytes: Bytes)

  /** The mirror with all files replaced. */
  function Overwritten(saved: map<string, Bytes>, files: seq<StagedFile>): map<string, Bytes> {
    if files == [] then saved
    else Overwritten(saved, files[..|files| - 1])[files[|files| - 1].path := files[|files| - 1].bytes]
  }

  predicate DistinctFiles(files: seq<StagedFile>) {
    forall i, j :: 0 <= i < j < |files| ==> files[i].path != files[j].path
  }

  /** The manifest: which of the files there are already. */
  function Manifested(saved: map<string, Bytes>, files: seq<StagedFile>): (entries: seq<Entry>)
    ensures |entries| == |files|
  {
    seq(|files|, i requires 0 <= i < |files| => Entry(files[i].path, files[i].path in saved, Prepared))
  }

  /** The entries while entry `k` is being replaced and has reached `phase`. */
  function Reached(entries: seq<Entry>, k: nat, phase: Phase): (out: seq<Entry>)
    ensures |out| == |entries|
  {
    seq(|entries|, i requires 0 <= i < |entries| =>
      entries[i].(phase := if i < k then Installed else if i == k then phase else Prepared))
  }

  /** One file: not touched yet, moved to its backup, or replaced. */
  predicate Part(d: Disk, i: nat, e: Entry, bytes: Bytes, saved: map<string, Bytes>, backedUp: bool, installed: bool)
    requires d.txn.Some?
  {
    && (e.existed <==> e.path in saved)
    && Lookup(d.txn.value.staged, i) == (if installed then None else Some(bytes))
    && Lookup(d.txn.value.backups, i) == (if e.existed && backedUp then Some(saved[e.path]) else None)
    && Lookup(d.files, e.path) ==
       if installed then Some(bytes) else if e.existed && backedUp then None else Lookup(saved, e.path)
  }

  /** Files before the k-th are replaced, those behind it untouched, and the k-th is in between. */
  ghost predicate Standing(
    d: Disk, saved: map<string, Bytes>, files: seq<StagedFile>, k: nat, phase: Phase, backedUp: bool, installed: bool)
  {
    var entries := Manifested(saved, files);
    && d.txn.Some? && d.txn.value.journal.Some? && !d.txn.value.journal.value.torn
    && State(d) == Entries(Reached(entries, k, phase))
    && (forall path :: !Names(entries, path) ==> Lookup(d.files, path) == Lookup(saved, path))
    && forall i: nat :: i < |files| ==>
         Part(d, i, entries[i], files[i].bytes, saved, i < k || (i == k && backedUp), i < k || (i == k && installed))
  }

  lemma StandingShape(
    d: Disk, saved: map<string, Bytes>, files: seq<StagedFile>, k: nat, phase: Phase, backedUp: bool, installed: bool)
    requires Standing(d, saved, files, k, phase, backedUp, installed)
    ensures d.txn.Some?
  {}

  lemma StandingKeeps(
    d: Disk, saved: map<string, Bytes>, files: seq<StagedFile>, k: nat, phase: Phase, backedUp: bool, installed: bool)
    requires DistinctFiles(files) && Standing(d, saved, files, k, phase, backedUp, installed)
    requires installed ==> backedUp && phase in {Installing, Installed}
    ensures Recoverable(d, saved)
  {
    hide ReadJournal;
    var entries := Manifested(saved, files);
    var reached := Reached(entries, k, phase);
    forall path | !Names(reached, path) ensures Lookup(d.files, path) == Lookup(saved, path) {
      SamePaths(entries, reached, path);
    }
    forall i: nat | i < |reached| ensures Holds(d, i, reached[i], saved) {
      assert Part(d, i, entries[i], files[i].bytes, saved, i < k || (i == k && backedUp), i < k || (i == k &&
      installed));
    }
  }

  lemma AdvanceStands(
    d: Disk, saved: map<string, Bytes>, files: seq<StagedFile>, k: nat, from: Phase, to: Phase, backedUp: bool,
    installed: bool)
    requires k < |files| && CanAdvance(from, to) && Standing(d, saved, files, k, from, backedUp, installed)
    ensures Standing(Apply(Append(k, to), d), saved, files, k, to, backedUp, installed)
  {
    hide ReadJournal;
    AppendReads(d, k, to);
    var entries, next := Manifested(saved, files), Apply(Append(k, to), d);
    assert Reached(entries, k, from)[k := Reached(entries, k, from)[k].(phase := to)] == Reached(entries, k, to);
    forall i: nat | i < |files|
      ensures Part(next, i, entries[i], files[i].bytes, saved, i < k || (i == k && backedUp), i < k || (i == k &&
              installed))
    {
      assert Part(d, i, entries[i], files[i].bytes, saved, i < k || (i == k && backedUp), i < k || (i == k &&
      installed));
    }
  }

  lemma BackUpStands(d: Disk, saved: map<string, Bytes>, files: seq<StagedFile>, k: nat)
    requires k < |files| && DistinctFiles(files) && files[k].path in saved
    requires Standing(d, saved, files, k, BackingUp, false, false)
    ensures Possible(BackUp(k, files[k].path), d)
    ensures Standing(Apply(BackUp(k, files[k].path), d), saved, files, k, BackingUp, true, false)
  {
    hide ReadJournal;
    var entries := Manifested(saved, files);
    assert Part(d, k, entries[k], files[k].bytes, saved, false, false);
    var next := Apply(BackUp(k, files[k].path), d);
    assert State(next) == State(d);
    assert Names(entries, files[k].path);
    forall i: nat | i < |files|
      ensures Part(next, i, entries[i], files[i].bytes, saved, i < k || i == k, i < k)
    {
      assert Part(d, i, entries[i], files[i].bytes, saved, i < k, i < k);
      assert i != k ==> files[i].path != files[k].path;
    }
  }

  lemma InstallStands(d: Disk, saved: map<string, Bytes>, files: seq<StagedFile>, k: nat)
    requires k < |files| && DistinctFiles(files) && Standing(d, saved, files, k, Installing, true, false)
    ensures files[k].path !in d.files && Possible(Install(k, files[k].path), d)
    ensures Standing(Apply(Install(k, files[k].path), d), saved, files, k, Installing, true, true)
  {
    hide ReadJournal;
    var entries := Manifested(saved, files);
    assert Part(d, k, entries[k], files[k].bytes, saved, true, false);
    var next := Apply(Install(k, files[k].path), d);
    assert State(next) == State(d);
    assert Names(entries, files[k].path);
    forall i: nat | i < |files| ensures Part(next, i, entries[i], files[i].bytes, saved, i <= k, i <= k) {
      assert Part(d, i, entries[i], files[i].bytes, saved, i < k || i == k, i < k);
      assert i != k ==> files[i].path != files[k].path;
    }
  }

  /** A new file has nothing to back up. */
  lemma NothingToBackUp(d: Disk, saved: map<string, Bytes>, files: seq<StagedFile>, k: nat, phase: Phase)
    requires k < |files| && files[k].path !in saved && Standing(d, saved, files, k, phase, false, false)
    ensures Standing(d, saved, files, k, phase, true, false)
  {
    hide ReadJournal;
    var entries := Manifested(saved, files);
    forall i: nat | i < |files| ensures Part(d, i, entries[i], files[i].bytes, saved, i < k || i == k, i < k) {
      assert Part(d, i, entries[i], files[i].bytes, saved, i < k, i < k);
    }
  }

  lemma NextStands(d: Disk, saved: map<string, Bytes>, files: seq<StagedFile>, k: nat)
    requires k < |files| && Standing(d, saved, files, k, Installed, true, true)
    ensures Standing(d, saved, files, k + 1, Prepared, false, false)
  {
    hide ReadJournal;
    var entries := Manifested(saved, files);
    assert Reached(entries, k, Installed) == Reached(entries, k + 1, Prepared);
    forall i: nat | i < |files| ensures Part(d, i, entries[i], files[i].bytes, saved, i < k + 1, i < k + 1) {
      assert Part(d, i, entries[i], files[i].bytes, saved, i < k || i == k, i < k || i == k);
    }
  }

  lemma {:induction false} OverwrittenIs(saved: map<string, Bytes>, files: seq<StagedFile>)
    requires DistinctFiles(files)
    ensures forall i :: 0 <= i < |files| ==> Lookup(Overwritten(saved, files), files[i].path) == Some(files[i].bytes)
    ensures forall path :: (forall i :: 0 <= i < |files| ==> files[i].path != path) ==>
                             Lookup(Overwritten(saved, files), path) == Lookup(saved, path)
  {
    if files == [] {
    } else {
      OverwrittenIs(saved, files[..|files| - 1]);
      assert forall i :: 0 <= i < |files| - 1 ==> files[..|files| - 1][i] == files[i];
    }
  }

  /** With every file replaced the mirror is the new one. */
  lemma AllReplaced(d: Disk, saved: map<string, Bytes>, files: seq<StagedFile>)
    requires DistinctFiles(files) && Standing(d, saved, files, |files|, Prepared, false, false)
    ensures d.files == Overwritten(saved, files)
  {
    hide ReadJournal;
    var entries, all := Manifested(saved, files), Overwritten(saved, files);
    OverwrittenIs(saved, files);
    forall path ensures Lookup(d.files, path) == Lookup(all, path) {
      if Names(entries, path) {
        var i: nat :| i < |entries| && entries[i].path == path;
        assert Part(d, i, entries[i], files[i].bytes, saved, true, true);
      } else {
        forall i | 0 <= i < |files| ensures files[i].path != path {
          assert entries[i].path == files[i].path;
        }
      }
    }
    LookupsEqual(d.files, all);
  }

  /** Nothing is promised without a saved mirror. */
  ghost predicate Keeps(d: Disk, saved: Option<map<string, Bytes>>) { saved.Some? ==> Recoverable(d, saved.value) }

  ghost predicate EntriesKeep(d: Disk, entries: seq<Entry>, saved: Option<map<string, Bytes>>) {
    d.txn.Some? && State(d) == Entries(entries) && (saved.Some? ==> AllHold(d, entries, saved.value))
  }

  /** Files before the k-th are staged, and there is no manifest yet. */
  ghost predicate Staging(d: Disk, saved: map<string, Bytes>, files: seq<StagedFile>, k: nat) {
    && d.files == saved && d.txn.Some? && d.txn.value.journal.None? && d.txn.value.backups == map[]
    && forall i: nat :: Lookup(d.txn.value.staged, i) == if i < k <= |files| then Some(files[i].bytes) else None
  }

  lemma StagingKeeps(d: Disk, saved: map<string, Bytes>, files: seq<StagedFile>, k: nat)
    requires Staging(d, saved, files, k)
    ensures Recoverable(d, saved) && State(d) == NoRecord
  {}

  lemma StagingStep(d: Disk, saved: map<string, Bytes>, files: seq<StagedFile>, k: nat)
    requires k < |files| && Staging(d, saved, files, k)
    ensures Staging(Apply(Stage(k, files[k].bytes), d), saved, files, k + 1)
    ensures Keeps(d, Some(saved)) && Keeps(Apply(Stage(k, files[k].bytes), d), Some(saved))
    ensures forall n: nat :: Keeps(Tear(Stage(k, files[k].bytes), n, d), Some(saved))
  {
    var next := Apply(Stage(k, files[k].bytes), d);
    forall i: nat ensures Lookup(next.txn.value.staged, i) == if i < k + 1 then Some(files[i].bytes) else None {
      assert Lookup(d.txn.value.staged, i) == if i < k then Some(files[i].bytes) else None;
    }
  }

  lemma Unstaged(d: Disk, files: seq<StagedFile>)
    requires d.txn.None?
    ensures Staging(Apply(CreateDir, d), d.files, files, 0)
    ensures Keeps(d, Some(d.files)) && Keeps(Apply(CreateDir, d), Some(d.files))
  {}

  lemma UntouchedKeeps(d: Disk)
    requires d.txn.None?
    ensures Recoverable(d, d.files)
  {}

  lemma ManifestStands(d: Disk, saved: map<string, Bytes>, files: seq<StagedFile>)
    requires Staging(d, saved, files, |files|) && DistinctFiles(files)
    ensures var op := StartJournal(Manifested(saved, files));
            && Standing(Apply(op, d), saved, files, 0, Prepared, false, false)
            && Keeps(d, Some(saved)) && Keeps(Apply(op, d), Some(saved)) &&
            forall n: nat :: Keeps(Tear(op, n, d), Some(saved))
  {
    var entries := Manifested(saved, files);
    var next := Apply(StartJournal(entries), d);
    assert next.txn.value.journal.value.lines[1..] == [];
    assert Replay(entries, []) == Some(entries) && Reached(entries, 0, Prepared) == entries;
    forall path | !Names(entries, path) ensures Lookup(next.files, path) == Lookup(saved, path) {
    }
    forall i: nat | i < |files| ensures Part(next, i, entries[i], files[i].bytes, saved, false, false) {
      assert Lookup(d.txn.value.staged, i) == Some(files[i].bytes);
    }
    StandingKeeps(next, saved, files, 0, Prepared, false, false);
  }

  lemma StandingReads(d: Disk, saved: map<string, Bytes>, files: seq<StagedFile>)
    requires Standing(d, saved, files, 0, Prepared, false, false)
    ensures State(d).Entries?
  {}

  /** The first `k` entries are rolled back, but for those that failed. */
  ghost predicate AllSettled(d: Disk, entries: seq<Entry>, k: nat, saved: map<string, Bytes>, failed: set<nat>) {
    forall i: nat :: i < k <= |entries| && i !in failed ==> Settled(d, entries[i], saved)
  }

  lemma NothingSettled(d: Disk, entries: seq<Entry>, saved: Option<map<string, Bytes>>)
    ensures saved.Some? ==> AllSettled(d, entries, 0, saved.value, {})
  {}

  lemma SettledPush(
    before: Disk, next: Disk, entries: seq<Entry>, k: nat, saved: Option<map<string, Bytes>>, failed: set<nat>,
    done: bool)
    requires k < |entries| && EntriesKeep(before, entries, saved) && SameBut(before, next, k, entries[k].path)
    requires saved.Some? ==> AllSettled(before, entries, k, saved.value, failed)
    requires done ==> next == RecoverOne(before, k, entries[k])
    ensures saved.Some? ==> AllSettled(next, entries, k + 1, saved.value, if done then failed else failed + {k})
  {
    hide ReadJournal, RecoverOne;
    if saved.Some? {
      if done {
        RecoverOneIs(before, entries, k, saved.value);
      }
      forall i: nat | i < k && i !in failed ensures Settled(next, entries[i], saved.value) {
        assert entries[i].path != entries[k].path;
        assert Lookup(before.files, entries[i].path) == Lookup(next.files, entries[i].path);
        assert Settled(before, entries[i], saved.value);
      }
    }
  }

  // ---- what has to reach the medium ----

  /** A directory, a staged file or the journal. TargetDir is the directory of a mirror file. */
  datatype Place =
    | Root | TxnDir | StagedDir | BackupDir | StagedBytes(index: nat) | JournalFile | TargetDir(path: string)

  /** What must be synced before an operation can no longer be lost. */
  function Places(op: Op): set<Place> {
    match op
    case CreateDir => {Root, TxnDir}
    case Stage(i, _) => {StagedBytes(i), StagedDir}
    case StartJournal(_) => {JournalFile, TxnDir}
    case Append(_, _) => {JournalFile, TxnDir}
    case BackUp(_, path) => {TargetDir(path), BackupDir}
    case Install(_, path) => {TargetDir(path), StagedDir}
    case Remove(path) => {TargetDir(path)}
    case Restore(_, path) => {TargetDir(path), BackupDir}
    case RemoveDir => {Root}
  }

  /** What may still be owed when an operation begins: the staging directory is synced once, behind all
      staged files. */
  function Pending(op: Op): set<Place> { if op.Stage? then {StagedDir} else {} }

  /** Every name that an operation makes, moves or removes is in a directory that must be synced for it,
      and every file it writes must be synced itself. */
  lemma PlacesCover(op: Op, d: Disk)
    requires Possible(op, d)
    ensures var next, places := Apply(op, d), Places(op);
            && (next.txn.Some? != d.txn.Some? ==> Root in places)
            && (forall path :: Lookup(next.files, path) != Lookup(d.files, path) ==> TargetDir(path) in places)
            && (d.txn.Some? && next.txn.Some? ==>
                  var before, after := d.txn.value, next.txn.value;
                  && (forall i :: (i in before.staged) != (i in after.staged) ==> StagedDir in places)
                  && (forall i :: (i in before.backups) != (i in after.backups) ==>
                        BackupDir in places || op.Restore?)
                  && (before.journal != after.journal ==> JournalFile in places)
                  && (before.journal.Some? != after.journal.Some? ==> TxnDir in places))
            && (op.Stage? ==> StagedBytes(op.index) in places)
  {}

  class PullFiles {
    var disk: Disk
    var world: World<Place>

    method Next() returns (fate: Fate)
      modifies this`world
      ensures world.owed == old(world.owed) && world.hasty == old(world.hasty)
      ensures fate == NextFate(old(world.fates))
      ensures Calm(old(world.fates)) ==> Calm(world.fates) && fate.Proceed?
      ensures AtMostOneFault(old(world.fates)) ==>
                AtMostOneFault(world.fates) && !fate.Kill? && (fate.Proceed? || Calm(world.fates))
      ensures Whole(old(world.fates)) ==> Whole(world.fates) && (fate.Proceed? || fate.tear.None?)
      ensures Steady(old(world), old(world.owed)) ==> Steady(world, world.owed) && !fate.Fault?
    {
      fate := Proceed;
      if world.fates != [] {
        fate := world.fates[0];
        world := world.(fates := world.fates[1..]);
      }
    }

    /** An operation that takes effect is lost by a power failure until all its places are synced. */
    method Begin(op: Op)
      modifies this`world
      ensures world == old(world).(owed := old(world.owed) + Places(op),
                hasty := old(world.hasty) || !(old(world.owed) <= Pending(op)))
    {
      world := world.(owed := world.owed + Places(op), hasty := world.hasty || !(world.owed <= Pending(op)));
    }

    /** One call into the file system that changes it. What is promised holds before, behind and, if
        only part of a write arrives, in the middle of it. */
    method Perform(op: Op, ghost saved: Option<map<string, Bytes>>) returns (status: Status)
      requires Keeps(disk, saved)
      requires Possible(op, disk) ==> Keeps(Apply(op, disk), saved) && forall n: nat :: Keeps(Tear(op, n, disk), saved)
      modifies this
      ensures Keeps(disk, saved)
      ensures status == Done ==> Possible(op, old(disk)) && disk == Apply(op, old(disk))
      ensures status != Done ==>
                disk == old(disk) || (Possible(op, old(disk)) && exists n: nat :: disk == Tear(op, n, old(disk)))
      ensures Counted(old(world.fates), world.fates, status, Possible(op, old(disk)))
      ensures Settles(old(world), Pending(op), world, Pending(op) + Places(op), status, Possible(op, old(disk)))
      ensures status == StatusOf(NextFate(old(world.fates)), Possible(op, old(disk)))
      ensures var fate := NextFate(old(world.fates));
              status != Done && Possible(op, old(disk)) && fate.tear.Some? ==>
                disk == Tear(op, fate.tear.value, old(disk))
      ensures status == Done || disk != old(disk) ==>
                && world.owed == old(world.owed) + Places(op)
                && world.hasty == (old(world.hasty) || !(old(world.owed) <= Pending(op)))
    {
      var fate := Next();
      if fate.Proceed? {
        status := Failed;
        if Possible(op, disk) {
          disk := Apply(op, disk);
          Begin(op);
          status := Done;
        }
      } else {
        status := if fate.Fault? then Failed else Crashed;
        if fate.tear.Some? && Possible(op, disk) {
          disk := Tear(op, fate.tear.value, disk);
          Begin(op);
        }
      }
    }

    /** sync_file or sync_dir: nothing on the disk changes, but the call may fail. */
    method Sync(place: Place) returns (status: Status)
      modifies this`world
      ensures Counted(old(world.fates), world.fates, status, true)
      ensures Settles(old(world), old(world.owed), world, old(world.owed) - {place}, status, true)
      ensures status == StatusOf(NextFate(old(world.fates)), true)
      ensures world.owed == if status == Done then old(world.owed) - {place} else old(world.owed)
    {
      var fate := Next();
      status := match fate case Proceed => Done case Fault(_) => Failed case Kill(_) => Crashed;
      if fate.Proceed? {
        world := world.(owed := world.owed - {place});
      }
    }

    /** Make sure that a directory is there: nothing that matters here changes, but the call may fail. */
    method Ensure() returns (status: Status)
      modifies this`world
      ensures Counted(old(world.fates), world.fates, status, true)
      ensures Settles(old(world), old(world.owed), world, old(world.owed), status, true)
    {
      var fate := Next();
      status := match fate case Proceed => Done case Fault(_) => Failed case Kill(_) => Crashed;
    }

    method SyncBoth(first: Place, second: Place) returns (status: Status)
      modifies this`world
      ensures Counted(old(world.fates), world.fates, status, true)
      ensures Settles(old(world), old(world.owed), world, old(world.owed) - {first, second}, status, true)
    {
      status := Sync(first);
      if status == Done {
        status := Sync(second);
      }
    }

    /** Read the journal, record by record. */
    method ReadEntries() returns (state: JournalState)
      ensures state == State(disk)
    {
      if disk.txn.None? || disk.txn.value.journal.None? || disk.txn.value.journal.value.lines == [] {
        return NoRecord;
      }
      var lines := disk.txn.value.journal.value.lines;
      if !lines[0].Manifest? || !AllPrepared(lines[0].entries) {
        return Invalid;
      }
      var entries := lines[0].entries;
      var rest := lines[1..];
      for i := 0 to |rest|
        invariant Replay(lines[0].entries, rest[..i]) == Some(entries)
      {
        assert rest[..i + 1][..i] == rest[..i];
        var record := rest[i];
        if !record.Advance? || record.index >= |entries| || !CanAdvance(entries[record.index].phase, record.phase) {
          RefusedForGood(lines[0].entries, rest, i + 1);
          return Invalid;
        }
        entries := entries[record.index := entries[record.index].(phase := record.phase)];
      }
      assert rest[..|rest|] == rest;
      return Entries(entries);
    }

    method RemoveTransaction(ghost saved: Option<map<string, Bytes>>) returns (status: Status)
      requires Keeps(disk, saved) && Keeps(disk.(txn := None), saved)
      modifies this
      ensures Keeps(disk, saved)
      ensures status == Done ==> disk == old(disk).(txn := None)
      ensures status == Failed ==> disk == old(disk) && disk.txn.Some?
      ensures status == Crashed ==> disk in {old(disk), old(disk).(txn := None)}
      ensures Accounted(old(world), world, status, true)
    {
      if disk.txn.None? {
        return Done;
      }
      status := Perform(RemoveDir, saved);
      if status == Done {
        status := Sync(Root);
        if status == Failed {
          status := Done;
        }
      }
    }

    // ---- recovery ----

    /** Remove a target that recovery may remove. */
    method ClearTarget(i: nat, e: Entry, ghost entries: seq<Entry>, ghost saved: Option<map<string, Bytes>>)
      returns (status: Status)
      requires EntriesKeep(disk, entries, saved) && i < |entries| && e == entries[i]
      requires e.existed ==> i in disk.txn.value.backups
      modifies this
      ensures EntriesKeep(disk, entries, saved) && SameBut(old(disk), disk, i, e.path)
      ensures disk.txn == old(disk).txn
      ensures status == Done ==> disk.files == old(disk).files - {e.path}
      ensures Accounted(old(world), world, status, true)
    {
      hide ReadJournal, SameBut, EntriesKeep, Keeps;
      UntouchedBut(disk, i, e.path, entries, saved);
      status := Ensure();
      if status == Done && e.path in disk.files {
        TargetMayGo(disk, entries, i, saved);
        status := Perform(Remove(e.path), saved);
        if status == Done {
          status := Sync(TargetDir(e.path));
        }
      }
    }

    method RestoreBackup(i: nat, e: Entry, ghost entries: seq<Entry>, ghost saved: Option<map<string, Bytes>>)
      returns (status: Status)
      requires EntriesKeep(disk, entries, saved) && i < |entries| && e == entries[i]
      requires e.existed && i in disk.txn.value.backups
      modifies this
      ensures EntriesKeep(disk, entries, saved) && SameBut(old(disk), disk, i, e.path)
      ensures status == Done ==> disk == RecoverOne(old(disk), i, e)
      ensures Accounted(old(world), world, status, true)
    {
      hide ReadJournal, SameBut, EntriesKeep, Keeps;
      ghost var start := disk;
      UntouchedBut(disk, i, e.path, entries, saved);
      status := ClearTarget(i, e, entries, saved);
      if status != Done {
        return;
      }
      ghost var cleared := disk;
      UntouchedBut(disk, i, e.path, entries, saved);
      BackupMayReturn(disk, entries, i, saved);
      status := Perform(Restore(i, e.path), saved);
      SameButThen(start, cleared, disk, i, e.path);
      assert status == Done ==> disk.files == RecoverOne(start, i, e).files;
      if status == Done {
        status := SyncBoth(TargetDir(e.path), BackupDir);
      }
    }

    method RecoverEntry(i: nat, e: Entry, ghost entries: seq<Entry>, ghost saved: Option<map<string, Bytes>>)
      returns (status: Status)
      requires EntriesKeep(disk, entries, saved) && i < |entries| && e == entries[i]
      modifies this
      ensures EntriesKeep(disk, entries, saved) && SameBut(old(disk), disk, i, e.path)
      ensures status == Done ==> disk == RecoverOne(old(disk), i, e)
      ensures Accounted(old(world), world, status, true)
    {
      hide ReadJournal, SameBut, EntriesKeep;
      UntouchedBut(disk, i, e.path, entries, saved);
      status := Done;
      if e.existed {
        if i in disk.txn.value.backups {
          status := RestoreBackup(i, e, entries, saved);
        }
      } else if e.phase in {Installing, Installed} && i !in disk.txn.value.staged {
        status := ClearTarget(i, e, entries, saved);
      }
    }

    /** Undo whatever transaction is there: every entry is tried even if one fails, and only then is
        the evidence removed. `failed` are the entries whose own calls failed. */
    method Recover(ghost saved: Option<map<string, Bytes>>) returns (status: Status, ghost failed: set<nat>)
      requires Keeps(disk, saved)
      modifies this
      ensures Keeps(disk, saved)
      ensures status == Done ==> Recovered(old(disk)) == Some(disk)
      ensures Recovered(old(disk)).None? ==> status == Failed && disk == old(disk)
      ensures status == Failed ==> disk.txn.Some?
      ensures old(disk).txn.None? ==> status == Done && disk == old(disk)
      ensures status == Failed && saved.Some? && State(old(disk)).Entries? ==>
                AllSettled(disk, State(old(disk)).entries, |State(old(disk)).entries|, saved.value, failed)
      ensures AtMostOneFault(old(world.fates)) ==> |failed| <= 1
      ensures Accounted(old(world), world, status, Recovered(old(disk)).Some?)
    {
      hide ReadJournal, RecoverOne, AllHold, AllSettled, SameBut, Whole, Calm, AtMostOneFault;
      failed := {};
      if disk.txn.None? {
        return Done, failed;
      }
      ghost var start, first := disk, world;
      var journal := ReadEntries();
      match journal {
        case Invalid =>
          return Failed, failed;
        case NoRecord =>
        case Entries(entries) =>
          var complete := true;
          NothingSettled(disk, entries, saved);
          for k := 0 to |entries|
            invariant EntriesKeep(disk, entries, saved)
            invariant saved.Some? ==> AllSettled(disk, entries, k, saved.value, failed)
            invariant complete ==> disk == RecoverFirst(start, entries, k)
            invariant complete <==> failed == {}
            invariant AtMostOneFault(first.fates) ==> |failed| <= 1 && (!complete ==> Calm(world.fates))
            invariant Accounted(first, world, if complete then Done else Failed, true)
          {
            ghost var before := disk;
            status := RecoverEntry(k, entries[k], entries, saved);
            if status == Crashed {
              EntriesKeepMeans(disk, entries, saved);
              return;
            }
            SettledPush(before, disk, entries, k, saved, failed, status == Done);
            if status == Failed {
              complete := false;
              failed := failed + {k};
            }
          }
          EntriesKeepMeans(disk, entries, saved);
          if !complete {
            return Failed, failed;
          }
          if saved.Some? {
            RecoveryRestoresMirror(start, saved.value);
          }
      }
      status := RemoveTransaction(saved);
    }

    // ---- replacement ----

    method AppendPhase(
      k: nat, ghost from: Phase, to: Phase, files: seq<StagedFile>, ghost saved: map<string, Bytes>, ghost b: bool,
      ghost installed: bool)
      returns (status: Status)
      requires k < |files| && DistinctFiles(files) && CanAdvance(from, to) &&
               Standing(disk, saved, files, k, from, b, installed)
      requires installed ==> b && from == Installing
      modifies this
      ensures disk.txn.Some? && Recoverable(disk, saved)
      ensures status == Done ==> Standing(disk, saved, files, k, to, b, installed)
      ensures Accounted(old(world), world, status, true)
    {
      hide ReadJournal, Standing, Recoverable;
      StandingKeeps(disk, saved, files, k, from, b, installed);
      AdvanceStands(disk, saved, files, k, from, to, b, installed);
      StandingShape(disk, saved, files, k, from, b, installed);
      StandingKeeps(Apply(Append(k, to), disk), saved, files, k, to, b, installed);
      forall n: nat ensures Recoverable(Tear(Append(k, to), n, disk), saved) {
        TornKeeps(disk, Append(k, to), n, saved);
      }
      status := Perform(Append(k, to), Some(saved));
      if status == Done {
        status := SyncBoth(JournalFile, TxnDir);
      }
    }

    /** Move the old file to its backup, if there is one. */
    method BackUpOne(k: nat, files: seq<StagedFile>, existed: bool, ghost saved: map<string, Bytes>)
      returns (status: Status)
      requires k < |files| && DistinctFiles(files) && existed == (files[k].path in saved)
      requires Standing(disk, saved, files, k, BackingUp, false, false)
      modifies this
      ensures disk.txn.Some? && Recoverable(disk, saved)
      ensures status == Done ==> Standing(disk, saved, files, k, BackingUp, true, false)
      ensures Accounted(old(world), world, status, true)
    {
      hide Standing, Recoverable;
      var path := files[k].path;
      StandingShape(disk, saved, files, k, BackingUp, false, false);
      StandingKeeps(disk, saved, files, k, BackingUp, false, false);
      if !existed {
        NothingToBackUp(disk, saved, files, k, BackingUp);
        return Done;
      }
      BackUpStands(disk, saved, files, k);
      StandingKeeps(Apply(BackUp(k, path), disk), saved, files, k, BackingUp, true, false);
      status := Ensure();
      if status == Done {
        if path !in disk.files {
          return Failed;
        }
        status := Perform(BackUp(k, path), Some(saved));
      }
      if status == Done {
        status := SyncBoth(TargetDir(path), BackupDir);
      }
    }

    /** Move the staged file to a target that nobody else filled. */
    method InstallOne(k: nat, files: seq<StagedFile>, ghost saved: map<string, Bytes>) returns (status: Status)
      requires k < |files| && DistinctFiles(files) && Standing(disk, saved, files, k, Installing, true, false)
      modifies this
      ensures disk.txn.Some? && Recoverable(disk, saved)
      ensures status == Done ==> Standing(disk, saved, files, k, Installing, true, true)
      ensures Accounted(old(world), world, status, true)
    {
      hide Standing, Recoverable;
      var path := files[k].path;
      StandingShape(disk, saved, files, k, Installing, true, false);
      StandingKeeps(disk, saved, files, k, Installing, true, false);
      InstallStands(disk, saved, files, k);
      StandingKeeps(Apply(Install(k, path), disk), saved, files, k, Installing, true, true);
      status := Ensure();
      if status == Done {
        if path in disk.files {
          return Failed;
        }
        status := Perform(Install(k, path), Some(saved));
      }
      if status == Done {
        status := SyncBoth(TargetDir(path), StagedDir);
      }
    }

    method ReplaceOne(k: nat, files: seq<StagedFile>, existed: bool, ghost saved: map<string, Bytes>)
      returns (status: Status)
      requires k < |files| && DistinctFiles(files) && existed == (files[k].path in saved)
      requires Standing(disk, saved, files, k, Prepared, false, false)
      modifies this
      ensures disk.txn.Some? && Recoverable(disk, saved)
      ensures status == Done ==> Standing(disk, saved, files, k + 1, Prepared, false, false)
      ensures Accounted(old(world), world, status, true)
    {
      hide Standing, Recoverable, Calm, AtMostOneFault, Whole;
      status := AppendPhase(k, Prepared, BackingUp, files, saved, false, false);
      if status == Done {
        status := BackUpOne(k, files, existed, saved);
      }
      if status == Done {
        status := AppendPhase(k, BackingUp, BackedUp, files, saved, true, false);
      }
      if status == Done {
        status := AppendPhase(k, BackedUp, Installing, files, saved, true, false);
      }
      if status == Done {
        status := InstallOne(k, files, saved);
      }
      if status == Done {
        status := AppendPhase(k, Installing, Installed, files, saved, true, true);
      }
      if status == Done {
        NextStands(disk, saved, files, k);
      }
    }

    /** Stage every file; until the manifest is written nothing can be lost. */
    method StageAll(files: seq<StagedFile>, ghost saved: map<string, Bytes>) returns (status: Status)
      requires Staging(disk, saved, files, 0)
      modifies this
      ensures disk.txn.Some? && Recoverable(disk, saved)
      ensures status == Done ==> Staging(disk, saved, files, |files|)
      ensures Accounted(old(world), world, status, true)
    {
      ghost var first := world;
      status := Done;
      for k := 0 to |files|
        invariant status == Done && Staging(disk, saved, files, k)
        invariant Counted(first.fates, world.fates, Done, true)
        invariant Settles(first, {}, world, {StagedDir}, Done, true)
      {
        StagingStep(disk, saved, files, k);
        status := Perform(Stage(k, files[k].bytes), Some(saved));
        if status == Done {
          status := Sync(StagedBytes(k));
        }
        if status != Done {
          return;
        }
      }
      status := Sync(StagedDir);
    }

    /** Create the transaction directory with its staging and backup directories. */
    method CreateTransaction(files: seq<StagedFile>) returns (status: Status)
      requires disk.txn.None?
      modifies this
      ensures Keeps(disk, Some(old(disk.files)))
      ensures status == Done ==> Staging(disk, old(disk.files), files, 0)
      ensures Accounted(old(world), world, status, true)
    {
      hide Staging, Recoverable, Whole, Calm, AtMostOneFault;
      Unstaged(disk, files);
      status := Perform(CreateDir, Some(disk.files));
      if status == Done {
        status := SyncBoth(Root, TxnDir);
      }
      if status == Done {
        status := Sync(TxnDir);
      }
    }

    method WriteManifest(files: seq<StagedFile>, entries: seq<Entry>, ghost saved: map<string, Bytes>)
      returns (status: Status)
      requires Staging(disk, saved, files, |files|) && DistinctFiles(files) && entries == Manifested(saved, files)
      modifies this
      ensures Keeps(disk, Some(saved))
      ensures status == Done ==> Standing(disk, saved, files, 0, Prepared, false, false)
      ensures Accounted(old(world), world, status, true)
    {
      hide Standing, Recoverable, Whole, Calm, AtMostOneFault;
      ManifestStands(disk, saved, files);
      status := Perform(StartJournal(entries), Some(saved));
      if status == Done {
        status := SyncBoth(JournalFile, TxnDir);
      }
    }

    /** Create the transaction directory, stage every file and write the manifest. */
    method Prepare(files: seq<StagedFile>, existed: seq<bool>) returns (status: Status)
      requires disk.txn.None? && DistinctFiles(files) && |existed| == |files|
      requires forall i :: 0 <= i < |files| ==> existed[i] == (files[i].path in disk.files)
      modifies this
      ensures Recoverable(disk, old(disk.files))
      ensures status == Done ==> disk.txn.Some? && Standing(disk, old(disk.files), files, 0, Prepared, false, false)
      ensures Accounted(old(world), world, status, true)
    {
      hide Standing, Staging, ReadJournal, Recoverable, Whole, Calm, AtMostOneFault;
      ghost var saved := disk.files;
      status := CreateTransaction(files);
      if status == Done {
        status := StageAll(files, saved);
      }
      if status != Done {
        return;
      }
      var entries := seq(|files|, i requires 0 <= i < |files| => Entry(files[i].path, existed[i], Prepared));
      assert entries == Manifested(saved, files);
      status := WriteManifest(files, entries, saved);
      if status == Done {
        StandingShape(disk, saved, files, 0, Prepared, false, false);
        StandingReads(disk, saved, files);
        var read := ReadEntries();
        if !read.Entries? {
          return Failed;
        }
      }
    }

    /** Replace all files or none. */
    method Replace(files: seq<StagedFile>) returns (outcome: Outcome)
      modifies this
      ensures old(disk).txn.Some? || !DistinctFiles(files) ==> outcome != Succeeded && disk == old(disk)
      ensures outcome == NotStarted ==> old(disk).txn.Some? || !DistinctFiles(files)
      ensures outcome == Succeeded ==> disk == Disk(Overwritten(old(disk).files, files), None)
      ensures outcome == RolledBack ==> disk == old(disk)
      ensures outcome == RollbackFailed ==> disk.txn.Some?
      ensures outcome in {RollbackFailed, Killed} && old(disk).txn.None? ==>
                Recoverable(disk, old(disk).files) || disk == Disk(Overwritten(old(disk).files, files), None)
      ensures AtMostOneFault(old(world.fates)) ==> outcome in {Succeeded, RolledBack, NotStarted}
      ensures Calm(old(world.fates)) ==>
                outcome == if old(disk).txn.Some? || !DistinctFiles(files) then NotStarted else Succeeded
      // while no call fails, each operation is durable before the next begins, and the last one at the end
      ensures Steady(old(world), {}) ==>
                && !world.hasty && outcome !in {RolledBack, RollbackFailed}
                && (outcome == Succeeded ==> world.owed == {})
    {
      hide Standing, Recoverable, Calm, AtMostOneFault, Whole, ReadJournal, Recovered;
      ghost var first, saved := world, disk.files;
      var planned: set<string> := {};
      var existed: seq<bool> := [];
      for k := 0 to |files|
        invariant |existed| == k && DistinctFiles(files[..k])
        invariant forall i :: 0 <= i < k ==> existed[i] == (files[i].path in disk.files)
        invariant forall path :: path in planned <==> exists i :: 0 <= i < k && files[i].path == path
      {
        if files[k].path in planned {
          return NotStarted;
        }
        planned := planned + {files[k].path};
        existed := existed + [files[k].path in disk.files];
        assert files[..k + 1] == files[..k] + [files[k]];
      }
      assert files[..|files|] == files;
      var status := Ensure();
      if status != Done {
        if disk.txn.None? {
          UntouchedKeeps(disk);
        }
        return if status == Failed then RolledBack else Killed;
      }
      if disk.txn.Some? {
        return NotStarted;
      }
      status := Prepare(files, existed);
      var k := 0;
      while status == Done && k < |files|
        invariant 0 <= k <= |files| && Recoverable(disk, saved)
        invariant status == Done ==> disk.txn.Some? && Standing(disk, saved, files, k, Prepared, false, false)
        invariant Accounted(first, world, status, true)
        decreases |files| - k, status == Done
      {
        status := ReplaceOne(k, files, existed[k], saved);
        k := k + 1;
      }
      if status == Done {
        ghost var replaced := disk;
        AllReplaced(disk, saved, files);
        status := RemoveTransaction(None);
        if status == Done {
          return Succeeded;
        }
      }
      if status == Crashed {
        return Killed;
      }
      RecoveryRestoresMirror(disk, saved);
      ghost var stuck;
      status, stuck := Recover(Some(saved));
      outcome := match status case Done => RolledBack case Failed => RollbackFailed case Crashed => Killed;
    }
  }

  lemma {:induction false} RefusedForGood(entries: seq<Entry>, lines: seq<Line>, k: nat)
    requires k <= |lines| && Replay(entries, lines[..k]).None?
    ensures Replay(entries, lines).None?
    decreases |lines| - k
  {
    if k == |lines| {
      assert lines[..k] == lines;
    } else {
      assert lines[..k + 1][..k] == lines[..k];
      RefusedForGood(entries, lines, k + 1);
    }
  }

  lemma EntriesKeepMeans(d: Disk, entries: seq<Entry>, saved: Option<map<string, Bytes>>)
    requires EntriesKeep(d, entries, saved)
    ensures Keeps(d, saved)
  {}

  /** A replaced or newly created file may be removed: its old content is in the backup, or there was none. */
  lemma TargetMayGo(d: Disk, entries: seq<Entry>, i: nat, saved: Option<map<string, Bytes>>)
    requires EntriesKeep(d, entries, saved) && i < |entries| && entries[i].path in d.files
    requires if entries[i].existed then i in d.txn.value.backups else true
    ensures var next := Apply(Remove(entries[i].path), d);
            && EntriesKeep(next, entries, saved) && Keeps(d, saved) && Keeps(next, saved)
            && SameBut(d, next, i, entries[i].path)
  {
    hide ReadJournal;
    if saved.Some? {
      var next := Apply(Remove(entries[i].path), d);
      assert Holds(d, i, entries[i], saved.value);
      TouchEntry(d, next, entries, i, saved.value);
    }
  }

  lemma UntouchedBut(d: Disk, i: nat, path: string, entries: seq<Entry>, saved: Option<map<string, Bytes>>)
    requires EntriesKeep(d, entries, saved)
    ensures SameBut(d, d, i, path) && d.txn.Some?
  {}

  lemma SameButThen(a: Disk, b: Disk, c: Disk, i: nat, path: string)
    requires SameBut(a, b, i, path) && SameBut(b, c, i, path)
    ensures SameBut(a, c, i, path)
  {}

  lemma BackupMayReturn(d: Disk, entries: seq<Entry>, i: nat, saved: Option<map<string, Bytes>>)
    requires EntriesKeep(d, entries, saved) && i < |entries| && entries[i].existed && i in d.txn.value.backups
    ensures var next := Apply(Restore(i, entries[i].path), d);
            && EntriesKeep(next, entries, saved) && Keeps(d, saved) && Keeps(next, saved)
            && SameBut(d, next, i, entries[i].path)
  {
    hide ReadJournal;
    if saved.Some? {
      var next := Apply(Restore(i, entries[i].path), d);
      assert Holds(d, i, entries[i], saved.value);
      TouchEntry(d, next, entries, i, saved.value);
    }
  }
}
