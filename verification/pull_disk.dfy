/** What `state/transaction.rs` keeps on disk while a pull replaces many files at once: the mirror, and
    a transaction directory with staged files, backups and one journal for all of them. */
module PullDisk {
  import opened Wrappers

  type Bytes = seq<byte>

  datatype Phase = Prepared | BackingUp | BackedUp | Installing | Installed

  predicate CanAdvance(from: Phase, to: Phase) {
    match from
    case Prepared => to == BackingUp
    case BackingUp => to == BackedUp
    case BackedUp => to == Installing
    case Installing => to == Installed
    case Installed => false
  }

  function Rank(phase: Phase): nat {
    match phase
    case Prepared => 0
    case BackingUp => 1
    case BackedUp => 2
    case Installing => 3
    case Installed => 4
  }

  datatype Entry = Entry(path: string, existed: bool, phase: Phase)

  /** A terminated journal line. Garbled stands for one that does not parse. */
  datatype Line = Manifest(entries: seq<Entry>) | Advance(index: nat, phase: Phase) | Garbled

  /** `torn` says that unterminated bytes follow the last complete line. */
  datatype Journal = Journal(lines: seq<Line>, torn: bool)

  datatype Txn = Txn(staged: map<nat, Bytes>, backups: map<nat, Bytes>, journal: Option<Journal>)

  datatype Disk = Disk(files: map<string, Bytes>, txn: Option<Txn>)

  function Lookup<K, V>(m: map<K, V>, key: K): Option<V> { if key in m then Some(m[key]) else None }

  // ---- the journal ----

  datatype JournalState = NoRecord | Entries(entries: seq<Entry>) | Invalid

  predicate AllPrepared(entries: seq<Entry>) { forall i :: 0 <= i < |entries| ==> entries[i].phase == Prepared }

  /** The entries after one more record, or None when it is refused. */
  function Updated(entries: Option<seq<Entry>>, line: Line): Option<seq<Entry>> {
    if entries.None? || !line.Advance? || line.index >= |entries.value| then None
    else if !CanAdvance(entries.value[line.index].phase, line.phase) then None
    else Some(entries.value[line.index := entries.value[line.index].(phase := line.phase)])
  }

  function Replay(entries: seq<Entry>, lines: seq<Line>): Option<seq<Entry>> {
    if lines == [] then Some(entries) else Updated(Replay(entries, lines[..|lines| - 1]), lines[|lines| - 1])
  }

  function ReadJournal(journal: Option<Journal>): JournalState {
    if journal.None? || journal.value.lines == [] then NoRecord
    else
      var lines := journal.value.lines;
      if !lines[0].Manifest? || !AllPrepared(lines[0].entries) then Invalid
      else match Replay(lines[0].entries, lines[1..])
        case None => Invalid
        case Some(entries) => Entries(entries)
  }

  function State(d: Disk): JournalState { if d.txn.None? then NoRecord else ReadJournal(d.txn.value.journal) }

  /** How many records were written for one entry. */
  function AdvancesOf(lines: seq<Line>, i: nat): nat {
    if lines == [] then 0
    else
      var last := lines[|lines| - 1];
      AdvancesOf(lines[..|lines| - 1], i) + if last.Advance? && last.index == i then 1 else 0
  }

  /** The record names an entry and the phase behind the one that its earlier records led to. */
  predicate NextPhase(lines: seq<Line>, k: nat, count: nat)
    requires k < |lines|
  {
    && lines[k].Advance? && lines[k].index < count
    && Rank(lines[k].phase) == AdvancesOf(lines[..k], lines[k].index) + 1
  }

  lemma {:induction false} ReplayIs(entries: seq<Entry>, lines: seq<Line>)
    requires AllPrepared(entries)
    ensures Replay(entries, lines).Some? <==> forall k :: 0 <= k < |lines| ==> NextPhase(lines, k, |entries|)
    ensures Replay(entries, lines).Some? ==>
              var now := Replay(entries, lines).value;
              && |now| == |entries|
              && forall i :: 0 <= i < |now| ==>
                   now[i] == entries[i].(phase := now[i].phase) && Rank(now[i].phase) == AdvancesOf(lines, i)
  {
    if lines == [] {
    } else {
      var n := |lines| - 1;
      var before := lines[..n];
      ReplayIs(entries, before);
      forall k | 0 <= k < n ensures NextPhase(before, k, |entries|) <==> NextPhase(lines, k, |entries|) {
        assert before[..k] == lines[..k] && before[k] == lines[k];
      }
      if Replay(entries, before).Some? {
        LastUpdates(entries, lines);
      }
    }
  }

  lemma LastUpdates(entries: seq<Entry>, lines: seq<Line>)
    requires lines != [] && Replay(entries, lines[..|lines| - 1]).Some?
    requires var now, before := Replay(entries, lines[..|lines| - 1]).value, lines[..|lines| - 1];
             && |now| == |entries|
             && forall i :: 0 <= i < |now| ==>
                  now[i] == entries[i].(phase := now[i].phase) && Rank(now[i].phase) == AdvancesOf(before, i)
    ensures Replay(entries, lines).Some? <==> NextPhase(lines, |lines| - 1, |entries|)
    ensures Replay(entries, lines).Some? ==>
              var now := Replay(entries, lines).value;
              && |now| == |entries|
              && forall i :: 0 <= i < |now| ==>
                   now[i] == entries[i].(phase := now[i].phase) && Rank(now[i].phase) == AdvancesOf(lines, i)
  {
    var n := |lines| - 1;
    var before := Replay(entries, lines[..n]).value;
    if Replay(entries, lines).Some? {
      var now := Replay(entries, lines).value;
      forall i | 0 <= i < |now|
        ensures now[i] == entries[i].(phase := now[i].phase) && Rank(now[i].phase) == AdvancesOf(lines, i)
      {
        assert before[i] == entries[i].(phase := before[i].phase);
      }
    }
  }

  /** A journal is read exactly when it begins with a manifest of prepared entries and every later
      record moves its entry on by one phase; each entry then has as many phases behind it as records. */
  lemma JournalReadIff(journal: Journal)
    ensures ReadJournal(Some(journal)).NoRecord? <==> journal.lines == []
    ensures ReadJournal(Some(journal)).Entries? <==>
            && journal.lines != [] && journal.lines[0].Manifest?
            && (forall i :: 0 <= i < |journal.lines[0].entries| ==> journal.lines[0].entries[i].phase == Prepared)
            && forall k :: 0 <= k < |journal.lines| - 1 ==>
                 NextPhase(journal.lines[1..], k, |journal.lines[0].entries|)
    ensures ReadJournal(Some(journal)).Entries? ==>
              var now, first := ReadJournal(Some(journal)).entries, journal.lines[0].entries;
              && |now| == |first|
              && forall i :: 0 <= i < |now| ==>
                   && now[i].path == first[i].path && now[i].existed == first[i].existed
                   && Rank(now[i].phase) == AdvancesOf(journal.lines[1..], i)
  {
    hide Replay, AdvancesOf, NextPhase;
    if journal.lines != [] && journal.lines[0].Manifest? && AllPrepared(journal.lines[0].entries) {
      ReplayIs(journal.lines[0].entries, journal.lines[1..]);
    }
  }

  // ---- file operations ----

  datatype Op =
    | CreateDir
    | Stage(index: nat, bytes: Bytes)
    | StartJournal(entries: seq<Entry>)
    | Append(index: nat, phase: Phase)
    | BackUp(index: nat, path: string)
    | Install(index: nat, path: string)
    | Remove(path: string)
    | Restore(index: nat, path: string)
    | RemoveDir

  predicate Possible(op: Op, d: Disk) {
    match op
    case CreateDir => d.txn.None?
    case BackUp(_, path) => d.txn.Some? && path in d.files
    case Install(i, _) => d.txn.Some? && i in d.txn.value.staged
    case Remove(path) => path in d.files
    case Restore(i, _) => d.txn.Some? && i in d.txn.value.backups
    case _ => d.txn.Some?
  }

  /** Appending behind a torn tail terminates the tail instead of starting a fresh line. */
  function AppendLine(journal: Option<Journal>, line: Line): Journal {
    match journal
    case None => Journal([line], false)
    case Some(j) => Journal(j.lines + [if j.torn then Garbled else line], false)
  }

  function InTxn(d: Disk, t: Txn): Disk { d.(txn := Some(t)) }

  function Apply(op: Op, d: Disk): Disk
    requires Possible(op, d)
  {
    match op
    case CreateDir => d.(txn := Some(Txn(map[], map[], None)))
    case Stage(i, bytes) => InTxn(d, d.txn.value.(staged := d.txn.value.staged[i := bytes]))
    case StartJournal(entries) => InTxn(d, d.txn.value.(journal := Some(Journal([Manifest(entries)], false))))
    case Append(i, phase) =>
      InTxn(d, d.txn.value.(journal := Some(AppendLine(d.txn.value.journal, Advance(i, phase)))))
    case BackUp(i, path) =>
      var next := InTxn(d, d.txn.value.(backups := d.txn.value.backups[i := d.files[path]]));
      next.(files := d.files - {path})
    case Install(i, path) =>
      var next := InTxn(d, d.txn.value.(staged := d.txn.value.staged - {i}));
      next.(files := d.files[path := d.txn.value.staged[i]])
    case Remove(path) => d.(files := d.files - {path})
    case Restore(i, path) =>
      var next := InTxn(d, d.txn.value.(backups := d.txn.value.backups - {i}));
      next.(files := d.files[path := d.txn.value.backups[i]])
    case RemoveDir => d.(txn := None)
  }

  /** What a write leaves when only its first `n` bytes reach the disk; a torn record lacks its
      newline. Every other operation is all or nothing. */
  function Tear(op: Op, n: nat, d: Disk): Disk
    requires Possible(op, d)
  {
    match op
    case Stage(i, bytes) =>
      d.(txn := Some(d.txn.value.(staged := d.txn.value.staged[i := if n < |bytes| then bytes[..n] else bytes])))
    case StartJournal(_) => d.(txn := Some(d.txn.value.(journal := Some(Journal([], n > 0)))))
    case Append(_, _) =>
      var j := if d.txn.value.journal.Some? then d.txn.value.journal.value else Journal([], false);
      d.(txn := Some(d.txn.value.(journal := Some(j.(torn := j.torn || n > 0)))))
    case _ => d
  }

  // ---- recovery, run to its end without a failing call ----

  /** Roll one entry back: the backup returns, or a newly created file goes. */
  function RecoverOne(d: Disk, i: nat, e: Entry): Disk
    requires d.txn.Some?
  {
    if e.existed then
      if i in d.txn.value.backups then Apply(Restore(i, e.path), d) else d
    else if e.phase in {Installing, Installed} && i !in d.txn.value.staged then d.(files := d.files - {e.path})
    else d
  }

  function RecoverFirst(d: Disk, entries: seq<Entry>, k: nat): (r: Disk)
    requires d.txn.Some? && k <= |entries|
    ensures r.txn.Some?
  {
    if k == 0 then d else RecoverOne(RecoverFirst(d, entries, k - 1), k - 1, entries[k - 1])
  }

  /** None where recovery refuses the journal. */
  function Recovered(d: Disk): Option<Disk> {
    if d.txn.None? then Some(d)
    else match State(d)
      case Invalid => None
      case NoRecord => Some(d.(txn := None))
      case Entries(entries) => Some(RecoverFirst(d, entries, |entries|).(txn := None))
  }

  /** What recovery makes of the file that entry `i` is about. */
  function RolledBack(d: Disk, i: nat, e: Entry): Option<Bytes>
    requires d.txn.Some?
  {
    var backup := Lookup(d.txn.value.backups, i);
    if e.existed && backup.Some? then backup
    else if !e.existed && Rank(e.phase) >= Rank(Installing) && i !in d.txn.value.staged then None
    else Lookup(d.files, e.path)
  }

  lemma SameRolledBack(a: Disk, b: Disk, i: nat, e: Entry)
    requires a.txn.Some? && b.txn.Some? && a.txn.value.staged == b.txn.value.staged
    requires Lookup(a.txn.value.backups, i) == Lookup(b.txn.value.backups, i)
    requires Lookup(a.files, e.path) == Lookup(b.files, e.path)
    ensures RolledBack(a, i, e) == RolledBack(b, i, e)
  {}

  lemma RecoverOneFiles(d: Disk, i: nat, e: Entry, path: string)
    requires d.txn.Some?
    ensures var next := RecoverOne(d, i, e);
            && Lookup(next.files, path) == (if path == e.path then RolledBack(d, i, e) else Lookup(d.files, path))
            && next.txn.value.staged == d.txn.value.staged
            && forall k :: k != i ==> Lookup(next.txn.value.backups, k) == Lookup(d.txn.value.backups, k)
  {}

  lemma {:induction false} RecoverFirstKeeps(d: Disk, entries: seq<Entry>, k: nat)
    requires d.txn.Some? && k <= |entries|
    ensures var next := RecoverFirst(d, entries, k);
            && next.txn.value.staged == d.txn.value.staged
            && (forall i: nat :: i >= k ==> Lookup(next.txn.value.backups, i) == Lookup(d.txn.value.backups, i))
  {
    if k == 0 {
    } else {
      RecoverFirstKeeps(d, entries, k - 1);
      RecoverOneFiles(RecoverFirst(d, entries, k - 1), k - 1, entries[k - 1], "");
      hide RecoverOne;
    }
  }

  lemma {:induction false} RecoverFirstFiles(d: Disk, entries: seq<Entry>, k: nat, path: string)
    requires d.txn.Some? && k <= |entries| && DistinctPaths(entries)
    ensures forall i :: 0 <= i < k && entries[i].path == path ==>
              Lookup(RecoverFirst(d, entries, k).files, path) == RolledBack(d, i, entries[i])
    ensures (forall i :: 0 <= i < k ==> entries[i].path != path) ==>
              Lookup(RecoverFirst(d, entries, k).files, path) == Lookup(d.files, path)
  {
    if k == 0 {
    } else {
      var e := entries[k - 1];
      RecoverFirstFiles(d, entries, k - 1, path);
      RecoverFirstKeeps(d, entries, k - 1);
      RecoverOneFiles(RecoverFirst(d, entries, k - 1), k - 1, e, path);
      if e.path == path {
        assert forall i :: 0 <= i < k - 1 ==> entries[i].path != e.path;
        SameRolledBack(d, RecoverFirst(d, entries, k - 1), k - 1, e);
      }
      hide RecoverOne;
    }
  }

  /** Recovery of any disk whose journal is read, file by file: a backup returns to its path, a new file
      that had left the transaction directory goes, and nothing else is touched. */
  lemma RecoveredFiles(d: Disk, path: string)
    requires d.txn.Some? && State(d).Entries? && DistinctPaths(State(d).entries)
    ensures Recovered(d).Some? && Recovered(d).value.txn.None?
    ensures forall i :: 0 <= i < |State(d).entries| && State(d).entries[i].path == path ==>
              Lookup(Recovered(d).value.files, path) == RolledBack(d, i, State(d).entries[i])
    ensures !Names(State(d).entries, path) ==> Lookup(Recovered(d).value.files, path) == Lookup(d.files, path)
  {
    RecoverFirstFiles(d, State(d).entries, |State(d).entries|, path);
  }

  // ---- disks from which the mirror `saved` can be restored ----

  predicate DistinctPaths(entries: seq<Entry>) {
    forall i, j :: 0 <= i < j < |entries| ==> entries[i].path != entries[j].path
  }

  predicate Names(entries: seq<Entry>, path: string) { exists i :: 0 <= i < |entries| && entries[i].path == path }

  /** The old content is in the backup or still in place; a new file can be told by its staged side. */
  predicate Holds(d: Disk, i: nat, e: Entry, saved: map<string, Bytes>)
    requires d.txn.Some?
  {
    if e.existed then
      && e.path in saved
      && (if i in d.txn.value.backups then d.txn.value.backups[i] == saved[e.path]
          else Lookup(d.files, e.path) == Some(saved[e.path]))
    else
      && e.path !in saved
      && (e.path !in d.files || (e.phase in {Installing, Installed} && i !in d.txn.value.staged))
  }

  ghost predicate AllHold(d: Disk, entries: seq<Entry>, saved: map<string, Bytes>)
    requires d.txn.Some?
  {
    && DistinctPaths(entries)
    && (forall path :: !Names(entries, path) ==> Lookup(d.files, path) == Lookup(saved, path))
    && forall i :: 0 <= i < |entries| ==> Holds(d, i, entries[i], saved)
  }

  ghost predicate Recoverable(d: Disk, saved: map<string, Bytes>) {
    if d.txn.None? then d.files == saved
    else match State(d)
      case Invalid => false
      case NoRecord => d.files == saved
      case Entries(entries) => AllHold(d, entries, saved)
  }

  /** Rolled back already. */
  predicate Settled(d: Disk, e: Entry, saved: map<string, Bytes>) { Lookup(d.files, e.path) == Lookup(saved, e.path) }

  /** The same but for one entry: its file, its staged side and its backup. */
  ghost predicate SameBut(a: Disk, b: Disk, i: nat, path: string) {
    && a.txn.Some? && b.txn.Some? && a.txn.value.journal == b.txn.value.journal
    && (forall p :: p != path ==> Lookup(a.files, p) == Lookup(b.files, p))
    && (forall k :: k != i ==> Lookup(a.txn.value.staged, k) == Lookup(b.txn.value.staged, k))
    && (forall k :: k != i ==> Lookup(a.txn.value.backups, k) == Lookup(b.txn.value.backups, k))
  }

  /** Changing what belongs to one entry leaves the others recoverable. */
  lemma TouchEntry(a: Disk, b: Disk, entries: seq<Entry>, i: nat, saved: map<string, Bytes>)
    requires i < |entries| && SameBut(a, b, i, entries[i].path)
    requires AllHold(a, entries, saved) && Holds(b, i, entries[i], saved)
    ensures AllHold(b, entries, saved)
  {
    forall path | !Names(entries, path) ensures Lookup(b.files, path) == Lookup(saved, path) {
      assert path != entries[i].path;
    }
    forall k: nat | k < |entries| ensures Holds(b, k, entries[k], saved) {
      if k != i {
        assert Holds(a, k, entries[k], saved);
        assert entries[k].path != entries[i].path;
        assert Lookup(a.files, entries[k].path) == Lookup(b.files, entries[k].path);
        assert Lookup(a.txn.value.staged, k) == Lookup(b.txn.value.staged, k);
        assert Lookup(a.txn.value.backups, k) == Lookup(b.txn.value.backups, k);
      }
    }
  }

  /** When every entry is rolled back the mirror is the saved one. */
  lemma SettledIsSaved(d: Disk, entries: seq<Entry>, saved: map<string, Bytes>)
    requires d.txn.Some? && AllHold(d, entries, saved)
    requires forall i :: 0 <= i < |entries| ==> Settled(d, entries[i], saved)
    ensures d.files == saved
  {
    forall path ensures Lookup(d.files, path) == Lookup(saved, path) {
      if Names(entries, path) {
        var i :| 0 <= i < |entries| && entries[i].path == path;
        assert Settled(d, entries[i], saved);
      }
    }
    LookupsEqual(d.files, saved);
  }

  lemma LookupsEqual<K, V>(a: map<K, V>, b: map<K, V>)
    requires forall key :: Lookup(a, key) == Lookup(b, key)
    ensures a == b
  {
    forall key ensures (key in a <==> key in b) && (key in a ==> a[key] == b[key]) {
      assert Lookup(a, key) == Lookup(b, key);
    }
  }

  lemma RecoverOneIs(d: Disk, entries: seq<Entry>, i: nat, saved: map<string, Bytes>)
    requires d.txn.Some? && i < |entries| && AllHold(d, entries, saved)
    ensures var next := RecoverOne(d, i, entries[i]);
            && SameBut(d, next, i, entries[i].path)
            && AllHold(next, entries, saved) && Settled(next, entries[i], saved)
  {
    var next := RecoverOne(d, i, entries[i]);
    assert Holds(d, i, entries[i], saved);
    assert Holds(next, i, entries[i], saved);
    TouchEntry(d, next, entries, i, saved);
  }

  lemma {:induction false} RecoverFirstIs(d: Disk, entries: seq<Entry>, k: nat, saved: map<string, Bytes>)
    requires d.txn.Some? && k <= |entries| && AllHold(d, entries, saved)
    ensures var next := RecoverFirst(d, entries, k);
            && AllHold(next, entries, saved) && next.txn.value.journal == d.txn.value.journal
            && forall i :: 0 <= i < k ==> Settled(next, entries[i], saved)
  {
    hide Holds, RecoverOne;
    if k == 0 {
    } else {
      var before := RecoverFirst(d, entries, k - 1);
      var next := RecoverFirst(d, entries, k);
      RecoverFirstIs(d, entries, k - 1, saved);
      RecoverOneIs(before, entries, k - 1, saved);
      forall i | 0 <= i < k ensures Settled(next, entries[i], saved) {
        if i < k - 1 {
          assert entries[i].path != entries[k - 1].path;
          assert Settled(before, entries[i], saved);
          assert Lookup(before.files, entries[i].path) == Lookup(next.files, entries[i].path);
        }
      }
    }
  }

  /** All or nothing: one complete recovery restores the whole mirror. */
  lemma RecoveryRestoresMirror(d: Disk, saved: map<string, Bytes>)
    requires Recoverable(d, saved)
    ensures Recovered(d) == Some(Disk(saved, None))
  {
    hide Holds, RecoverOne, RecoverFirst, Replay;
    if d.txn.Some? && State(d).Entries? {
      var entries := State(d).entries;
      RecoverFirstIs(d, entries, |entries|, saved);
      SettledIsSaved(RecoverFirst(d, entries, |entries|), entries, saved);
    }
  }

  // ---- what the operations keep ----

  /** A torn write harms nothing: not a staged file before there is a journal, nor any record. */
  lemma TornKeeps(d: Disk, op: Op, n: nat, saved: map<string, Bytes>)
    requires Recoverable(d, saved) && Possible(op, d) && (op.Stage? || op.StartJournal? ==> State(d) == NoRecord)
    ensures Recoverable(Tear(op, n, d), saved)
    ensures op.Append? ==> State(Tear(op, n, d)) == State(d)
  {
    var next := Tear(op, n, d);
    if op.Append? && State(d).Entries? {
      var entries := State(d).entries;
      forall i | 0 <= i < |entries| ensures Holds(next, i, entries[i], saved) {
        assert Holds(d, i, entries[i], saved);
      }
    }
  }

  lemma AppendReads(d: Disk, i: nat, phase: Phase)
    requires d.txn.Some? && State(d).Entries? && !d.txn.value.journal.value.torn
    requires i < |State(d).entries| && CanAdvance(State(d).entries[i].phase, phase)
    ensures var next := Apply(Append(i, phase), d);
            && State(next) == Entries(State(d).entries[i := State(d).entries[i].(phase := phase)])
            && next.files == d.files && !next.txn.value.journal.value.torn
            && next.txn.value.(journal := None) == d.txn.value.(journal := None)
  {
    var lines := d.txn.value.journal.value.lines;
    var longer := lines + [Advance(i, phase)];
    assert longer[1..] == lines[1..] + [Advance(i, phase)];
    assert longer[1..][..|lines| - 1] == lines[1..];
    assert longer[0] == lines[0];
  }

  /** A record written behind a torn one ends up on its line, and no reader accepts that journal. */
  lemma AppendBehindTorn(d: Disk, i: nat, phase: Phase)
    requires d.txn.Some? && d.txn.value.journal.Some? && d.txn.value.journal.value.torn
    requires d.txn.value.journal.value.lines != []
    ensures State(Apply(Append(i, phase), d)) == Invalid && Recovered(Apply(Append(i, phase), d)).None?
  {
    var lines := d.txn.value.journal.value.lines;
    var longer := lines + [Garbled];
    assert longer[0] == lines[0] && longer[1..] == lines[1..] + [Garbled];
  }

  lemma AppendKeeps(d: Disk, i: nat, phase: Phase, saved: map<string, Bytes>)
    requires d.txn.Some? && State(d).Entries? && !d.txn.value.journal.value.torn && Recoverable(d, saved)
    requires i < |State(d).entries| && CanAdvance(State(d).entries[i].phase, phase)
    ensures Recoverable(Apply(Append(i, phase), d), saved)
  {
    hide ReadJournal;
    AppendReads(d, i, phase);
    var entries, next := State(d).entries, Apply(Append(i, phase), d);
    var advanced := entries[i := entries[i].(phase := phase)];
    forall path | !Names(advanced, path) ensures Lookup(next.files, path) == Lookup(saved, path) {
      SamePaths(entries, advanced, path);
    }
    forall k | 0 <= k < |advanced| ensures Holds(next, k, advanced[k], saved) {
      assert Holds(d, k, entries[k], saved);
    }
  }

  lemma SamePaths(a: seq<Entry>, b: seq<Entry>, path: string)
    requires |a| == |b| && forall i :: 0 <= i < |a| ==> a[i].path == b[i].path
    ensures Names(a, path) <==> Names(b, path)
  {
    if i :| 0 <= i < |a| && a[i].path == path {
      assert b[i].path == path;
    }
    if i :| 0 <= i < |b| && b[i].path == path {
      assert a[i].path == path;
    }
  }
}
