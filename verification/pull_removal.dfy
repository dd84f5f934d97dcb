/** Removing the transaction directory of a pull is many steps to the file system. What is left when
    the removal that commits a replacement stops half way. */
module PullRemoval {
  import opened Wrappers
  import opened PullDisk
  import opened PullTransaction

  ghost predicate SubMap<K, V>(a: map<K, V>, b: map<K, V>) { forall key :: key in a ==> key in b && a[key] == b[key] }

  /** `half` is `d` with some files of its transaction directory already removed. */
  ghost predicate HalfRemoved(d: Disk, half: Disk) {
    && d.txn.Some? && half.txn.Some? && half.files == d.files
    && SubMap(half.txn.value.staged, d.txn.value.staged) && SubMap(half.txn.value.backups, d.txn.value.backups)
    && half.txn.value.journal in {None, d.txn.value.journal}
  }

  /** What recovery makes of one replaced file whose backup may be gone. */
  function RolledBackTo(e: Entry, bytes: Bytes, saved: map<string, Bytes>, backupLeft: bool): Option<Bytes> {
    if !e.existed then None else if backupLeft then Lookup(saved, e.path) else Some(bytes)
  }

  /** Where recovery stands behind a half-done removal, the first `k` entries rolled back. */
  ghost predicate RolledBack(
    r: Disk, half: Disk, saved: map<string, Bytes>, files: seq<StagedFile>, entries: seq<Entry>, k: nat)
    requires half.txn.Some? && r.txn.Some? && |entries| == |files|
  {
    && r.txn.value.staged == half.txn.value.staged
    && (forall i: nat :: k <= i < |files| ==> Lookup(r.txn.value.backups, i) == Lookup(half.txn.value.backups, i))
    && (forall path :: !Names(entries, path) ==> Lookup(r.files, path) == Lookup(saved, path))
    && forall i: nat :: i < |files| ==>
         Lookup(r.files, files[i].path) ==
         if i < k then RolledBackTo(entries[i], files[i].bytes, saved, i in half.txn.value.backups)
         else Some(files[i].bytes)
  }

  function AllInstalled(saved: map<string, Bytes>, files: seq<StagedFile>): (entries: seq<Entry>)
    ensures |entries| == |files|
  {
    Reached(Manifested(saved, files), |files|, Prepared)
  }

  lemma NothingRolledBack(half: Disk, d: Disk, saved: map<string, Bytes>, files: seq<StagedFile>)
    requires Standing(d, saved, files, |files|, Prepared, false, false) && HalfRemoved(d, half)
    ensures RolledBack(half, half, saved, files, AllInstalled(saved, files), 0)
  {
    hide ReadJournal;
    var manifest, entries := Manifested(saved, files), AllInstalled(saved, files);
    forall i: nat | i < |files| ensures Lookup(half.files, files[i].path) == Some(files[i].bytes) {
      assert Part(d, i, manifest[i], files[i].bytes, saved, true, true);
    }
    forall path | !Names(entries, path) ensures Lookup(half.files, path) == Lookup(saved, path) {
      SamePaths(manifest, entries, path);
    }
  }

  lemma RolledBackStep(
    before: Disk, next: Disk, half: Disk, saved: map<string, Bytes>, files: seq<StagedFile>, k: nat)
    requires DistinctFiles(files) && k < |files| && half.txn.Some? && before.txn.Some? && next.txn.Some?
    requires RolledBack(before, half, saved, files, AllInstalled(saved, files), k)
    requires var e := AllInstalled(saved, files)[k];
             && Lookup(next.files, e.path) == RolledBackTo(e, files[k].bytes, saved, k in half.txn.value.backups)
             && next.txn.value.staged == half.txn.value.staged
             && (forall i: nat :: i != k ==> Lookup(next.txn.value.backups, i) == Lookup(before.txn.value.backups, i))
             && forall path :: path != e.path ==> Lookup(next.files, path) == Lookup(before.files, path)
    ensures RolledBack(next, half, saved, files, AllInstalled(saved, files), k + 1)
  {
    hide RolledBackTo;
    var entries := AllInstalled(saved, files);
    forall path | !Names(entries, path) ensures Lookup(next.files, path) == Lookup(saved, path) {
      assert path != entries[k].path;
    }
    forall i: nat | i < |files|
      ensures Lookup(next.files, files[i].path) ==
              if i < k + 1 then RolledBackTo(entries[i], files[i].bytes, saved, i in half.txn.value.backups)
              else Some(files[i].bytes)
    {
      assert i != k ==> files[i].path != files[k].path;
    }
  }

  lemma {:induction false} HalfRecovered(
    half: Disk, d: Disk, saved: map<string, Bytes>, files: seq<StagedFile>, k: nat)
    requires DistinctFiles(files) && k <= |files|
    requires Standing(d, saved, files, |files|, Prepared, false, false) && HalfRemoved(d, half)
    ensures var entries := AllInstalled(saved, files); RolledBack(RecoverFirst(half, entries, k), half, saved, files,
      entries, k)
  {
    hide Standing, RecoverOne, RolledBack, HalfRemoved;
    HalfHasTxn(d, half);
    if k == 0 {
      NothingRolledBack(half, d, saved, files);
    } else {
      HalfRecovered(half, d, saved, files, k - 1);
      var entries := AllInstalled(saved, files);
      var before := RecoverFirst(half, entries, k - 1);
      LastUntouched(before, half, d, saved, files, k - 1);
      OneHalfRecovered(before, half, d, k - 1, entries[k - 1], files[k - 1].bytes, saved);
      RolledBackStep(before, RecoverFirst(half, entries, k), half, saved, files, k - 1);
    }
  }

  lemma HalfHasTxn(d: Disk, half: Disk)
    requires HalfRemoved(d, half)
    ensures d.txn.Some? && half.txn.Some?
  {}

  lemma LastUntouched(
    before: Disk, half: Disk, d: Disk, saved: map<string, Bytes>, files: seq<StagedFile>, i: nat)
    requires i < |files| && half.txn.Some? && before.txn.Some?
    requires Standing(d, saved, files, |files|, Prepared, false, false)
    requires RolledBack(before, half, saved, files, AllInstalled(saved, files), i)
    ensures var e := AllInstalled(saved, files)[i];
            && d.txn.Some? && Part(d, i, e.(phase := Prepared), files[i].bytes, saved, true, true)
            && e.phase == Installed && e.path == files[i].path
            && before.txn.value.staged == half.txn.value.staged
            && Lookup(before.txn.value.backups, i) == Lookup(half.txn.value.backups, i)
            && Lookup(before.files, e.path) == Some(files[i].bytes)
  {
    hide ReadJournal;
    assert Part(d, i, Manifested(saved, files)[i], files[i].bytes, saved, true, true);
  }

  /** Recovery of one entry behind a removal that stopped half way. */
  lemma OneHalfRecovered(
    before: Disk, half: Disk, d: Disk, i: nat, e: Entry, bytes: Bytes, saved: map<string, Bytes>)
    requires before.txn.Some? && HalfRemoved(d, half) && e.phase == Installed
    requires Part(d, i, e.(phase := Prepared), bytes, saved, true, true)
    requires before.txn.value.staged == half.txn.value.staged
    requires Lookup(before.txn.value.backups, i) == Lookup(half.txn.value.backups, i)
    requires Lookup(before.files, e.path) == Some(bytes)
    ensures var r := RecoverOne(before, i, e);
            && Lookup(r.files, e.path) == RolledBackTo(e, bytes, saved, i in half.txn.value.backups)
            && r.txn.value.staged == half.txn.value.staged
            && (forall k: nat :: k != i ==> Lookup(r.txn.value.backups, k) == Lookup(before.txn.value.backups, k))
            && forall path :: path != e.path ==> Lookup(r.files, path) == Lookup(before.files, path)
  {
    assert Lookup(d.txn.value.staged, i) == None;
    assert Lookup(d.txn.value.backups, i) == if e.existed then Some(saved[e.path]) else None;
    assert i !in half.txn.value.staged;
    assert i in half.txn.value.backups ==>
        i in d.txn.value.backups && half.txn.value.backups[i] == d.txn.value.backups[i];
    assert i in before.txn.value.backups <==> i in half.txn.value.backups by {
      assert Lookup(before.txn.value.backups, i) == Lookup(half.txn.value.backups, i);
    }
  }

  /** A backup that is gone does not matter if the file did not change. */
  predicate Indistinct(saved: map<string, Bytes>, f: StagedFile) { Lookup(saved, f.path) == Some(f.bytes) }

  /** Removal that commits a replacement and stops half way. Without the journal the new mirror stands;
      with it, recovery reports success, and the mirror is the old one if and only if the backup of
      every changed file is left, and the new one if and only if no file is new and no backup of a
      changed file is left. Anything else is a mixture. */
  lemma HalfRemovedMirror(d: Disk, half: Disk, saved: map<string, Bytes>, files: seq<StagedFile>)
    requires DistinctFiles(files) && Standing(d, saved, files, |files|, Prepared, false, false) && HalfRemoved(d, half)
    ensures Recovered(half).Some? && Recovered(half).value.txn.None?
    ensures half.txn.value.journal.None? ==> Recovered(half) == Some(Disk(Overwritten(saved, files), None))
    ensures half.txn.value.journal.Some? ==>
              && (Recovered(half) == Some(Disk(saved, None)) <==>
                  forall i :: 0 <= i < |files| && files[i].path in saved ==>
                                i in half.txn.value.backups || Indistinct(saved, files[i]))
              && (Recovered(half) == Some(Disk(Overwritten(saved, files), None)) <==>
                  forall i :: 0 <= i < |files| ==>
                                && files[i].path in saved
                                && (i !in half.txn.value.backups || Indistinct(saved, files[i])))
  {
    hide RecoverFirst, RecoverOne;
    AllReplaced(d, saved, files);
    if half.txn.value.journal.Some? {
      HalfMirrorIs(d, half, saved, files);
    }
  }

  lemma HalfMirrorIs(d: Disk, half: Disk, saved: map<string, Bytes>, files: seq<StagedFile>)
    requires DistinctFiles(files) && Standing(d, saved, files, |files|, Prepared, false, false) && HalfRemoved(d, half)
    requires half.txn.value.journal.Some?
    ensures Recovered(half).Some? && Recovered(half).value.txn.None?
    ensures Recovered(half).value.files == saved <==>
            forall i :: 0 <= i < |files| && files[i].path in saved ==>
                          i in half.txn.value.backups || Indistinct(saved, files[i])
    ensures Recovered(half).value.files == Overwritten(saved, files) <==>
            forall i :: 0 <= i < |files| ==>
                          && files[i].path in saved
                          && (i !in half.txn.value.backups || Indistinct(saved, files[i]))
  {
    hide ReadJournal, RecoverFirst, RecoverOne, Overwritten;
    var entries := AllInstalled(saved, files);
    assert State(half) == Entries(entries);
    var r := RecoverFirst(half, entries, |files|);
    HalfRecovered(half, d, saved, files, |files|);
    OverwrittenIs(saved, files);
    var all := Overwritten(saved, files);
    forall i: nat | i < |files|
      ensures Lookup(r.files, files[i].path) ==
              RolledBackTo(entries[i], files[i].bytes, saved, i in half.txn.value.backups)
      ensures Lookup(all, files[i].path) == Some(files[i].bytes)
    {}
    SameMirrorIff(r.files, saved, entries, files, saved);
    SameMirrorIff(r.files, all, entries, files, saved);
  }

  /** Two mirrors that agree outside the entries are equal exactly when they agree on each entry. */
  lemma SameMirrorIff(
    a: map<string, Bytes>, b: map<string, Bytes>, entries: seq<Entry>, files: seq<StagedFile>, saved: map<string,
    Bytes>)
    requires |entries| == |files| && forall i :: 0 <= i < |files| ==> entries[i].path == files[i].path
    requires forall path :: !Names(entries, path) ==> Lookup(a, path) == Lookup(saved, path)
    requires b == saved || forall path :: (forall i :: 0 <= i < |files| ==> files[i].path != path) ==>
                                            Lookup(b, path) == Lookup(saved, path)
    ensures a == b <==> forall i :: 0 <= i < |files| ==> Lookup(a, files[i].path) == Lookup(b, files[i].path)
  {
    if forall i :: 0 <= i < |files| ==> Lookup(a, files[i].path) == Lookup(b, files[i].path) {
      forall path ensures Lookup(a, path) == Lookup(b, path) {
        if Names(entries, path) {
          var i :| 0 <= i < |entries| && entries[i].path == path;
          assert files[i].path == path;
        } else {
          forall i | 0 <= i < |files| ensures files[i].path != path {
            assert entries[i].path == files[i].path;
          }
        }
      }
      LookupsEqual(a, b);
    }
  }

  /** Two changed files of which one lost its backup first: recovery succeeds with one old and one new. */
  lemma HalfRemovedCanMix()
    ensures exists d: Disk, half: Disk, saved: map<string, Bytes>, files: seq<StagedFile> ::
              && DistinctFiles(files) && Standing(d, saved, files, |files|, Prepared, false, false)
              && HalfRemoved(d, half) && Recovered(half).Some?
              && Recovered(half).value.files != saved && Recovered(half).value.files != Overwritten(saved, files)
  {
    hide Standing, HalfRemoved, Recovered, Overwritten, Replay;
    var saved: map<string, Bytes> := map["a" := [], "b" := []];
    var files := [StagedFile("a", [1]), StagedFile("b", [1])];
    var manifest := Manifested(saved, files);
    var journal := Journal([Manifest(manifest)] + Steps(0) + Steps(1), false);
    var backups: map<nat, Bytes> := map[0 := [], 1 := []];
    var d := Disk(map["a" := [1], "b" := [1]], Some(Txn(map[], backups, Some(journal))));
    var half := Disk(d.files, Some(Txn(map[], map[1 := []], Some(journal))));
    AllSteps(manifest);
    assert journal.lines[1..] == Steps(0) + Steps(1);
    BothReplaced(d, saved, files, manifest);
    HalfOf(d, half);
    HalfRemovedMirror(d, half, saved, files);
    assert 0 !in half.txn.value.backups && !Indistinct(saved, files[0]);
    assert 1 in half.txn.value.backups && !Indistinct(saved, files[1]);
  }

  lemma BothReplaced(d: Disk, saved: map<string, Bytes>, files: seq<StagedFile>, manifest: seq<Entry>)
    requires saved == map["a" := [], "b" := []] && files == [StagedFile("a", [1]), StagedFile("b", [1])]
    requires manifest == Manifested(saved, files)
    requires d.files == map["a" := [1], "b" := [1]] && d.txn.Some? && d.txn.value.journal.Some?
    requires d.txn.value.staged == map[] && d.txn.value.backups == map[0 := [], 1 := []]
    requires !d.txn.value.journal.value.torn && State(d) == Entries(Reached(manifest, 2, Prepared))
    ensures Standing(d, saved, files, |files|, Prepared, false, false)
  {
    hide ReadJournal;
    assert manifest[0].path == "a" && manifest[1].path == "b";
    forall path | !Names(manifest, path) ensures Lookup(d.files, path) == Lookup(saved, path) {
    }
    forall i: nat | i < |files| ensures Part(d, i, manifest[i], files[i].bytes, saved, true, true) {
    }
  }

  lemma HalfOf(d: Disk, half: Disk)
    requires d.txn.Some? && half.txn.Some? && half.files == d.files && d.txn.value.backups == map[0 := [], 1 := []]
    requires half.txn.value.staged == map[] && half.txn.value.backups == map[1 := []]
    requires half.txn.value.journal == d.txn.value.journal
    ensures HalfRemoved(d, half)
  {}

  function Steps(i: nat): seq<Line> {
    [Advance(i, BackingUp), Advance(i, BackedUp), Advance(i, Installing), Advance(i, Installed)]
  }

  lemma {:induction false} ReplayConcat(entries: seq<Entry>, a: seq<Line>, b: seq<Line>)
    ensures Replay(entries, a + b) ==
            if Replay(entries, a).None? then None else Replay(Replay(entries, a).value, b)
  {
    if b == [] {
      assert a + b == a;
    } else {
      assert (a + b)[..|a + b| - 1] == a + b[..|b| - 1];
      ReplayConcat(entries, a, b[..|b| - 1]);
    }
  }

  lemma StepsReplay(entries: seq<Entry>, i: nat)
    requires i < |entries| && entries[i].phase == Prepared
    ensures Replay(entries, Steps(i)) == Some(entries[i := entries[i].(phase := Installed)])
  {
    var first, second, third := [Advance(i, BackingUp)], [Advance(i, BackedUp)], [Advance(i, Installing)];
    ReplayPush(entries, [], Advance(i, BackingUp));
    ReplayPush(entries, first, Advance(i, BackedUp));
    ReplayPush(entries, first + second, Advance(i, Installing));
    ReplayPush(entries, first + second + third, Advance(i, Installed));
    assert [] + first == first && Steps(i) == first + second + third + [Advance(i, Installed)];
    assert Replay(entries, []) == Some(entries);
    var e1 := entries[i := entries[i].(phase := BackingUp)];
    var e2 := entries[i := entries[i].(phase := BackedUp)];
    var e3 := entries[i := entries[i].(phase := Installing)];
    assert e1[i := e1[i].(phase := BackedUp)] == e2;
    assert e2[i := e2[i].(phase := Installing)] == e3;
    assert e3[i := e3[i].(phase := Installed)] == entries[i := entries[i].(phase := Installed)];
    assert Replay(entries, first) == Some(e1) && Replay(entries, first + second) == Some(e2);
  }

  lemma ReplayPush(entries: seq<Entry>, lines: seq<Line>, line: Line)
    ensures Replay(entries, lines + [line]) == Updated(Replay(entries, lines), line)
  {
    assert (lines + [line])[..|lines|] == lines;
  }

  lemma AllSteps(entries: seq<Entry>)
    requires |entries| == 2 && AllPrepared(entries)
    ensures Replay(entries, Steps(0) + Steps(1)) == Some(Reached(entries, 2, Prepared))
  {
    hide Replay, Steps;
    var half := entries[0 := entries[0].(phase := Installed)];
    StepsReplay(entries, 0);
    StepsReplay(half, 1);
    ReplayConcat(entries, Steps(0), Steps(1));
    assert half[1 := half[1].(phase := Installed)] == Reached(entries, 2, Prepared);
  }
}
