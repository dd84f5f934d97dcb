/** What `report_file.rs` keeps on disk: the report itself and the transaction directory beside
    it, the file operations that change them, and the journal reader. One operation is one step;
    a crash falls between two steps or, for a write, inside one. */
module ReportDisk {
  import opened Wrappers

  type Bytes = seq<byte>

  datatype Phase = Prepared | BackingUp | BackedUp | Installing | Installed | Restoring | Restored

  /** A terminated journal line. `existed` is absent from every record but the first. A line that
      a torn record runs into parses as neither record type. */
  datatype Line = Record(existed: Option<bool>, phase: Phase) | Garbled

  /** `torn` says that unterminated bytes follow the last complete line. */
  datatype Journal = Journal(lines: seq<Line>, torn: bool)

  datatype Txn = Txn(
    staged: Option<Bytes>, backup: Option<Bytes>, original: Option<Bytes>, journal: Option<Journal>)

  datatype Disk = Disk(target: Option<Bytes>, txn: Option<Txn>)

  const EMPTY_TXN := Txn(None, None, None, None)

  datatype Slot = Target | Staged | Backup | Original

  datatype Op =
    | CreateDir
    | Write(slot: Slot, bytes: Bytes)
    | StartJournal(existed: bool)
    | AppendPhase(phase: Phase)
    | Rename(from: Slot, to: Slot)
    | Remove(slot: Slot)
    | RemoveDir

  function Read(d: Disk, slot: Slot): Option<Bytes> {
    if slot == Target then d.target
    else match d.txn
      case None => None
      case Some(t) => match slot
        case Staged => t.staged
        case Backup => t.backup
        case _ => t.original
  }

  function Store(d: Disk, slot: Slot, content: Option<Bytes>): Disk {
    if slot == Target then d.(target := content)
    else match d.txn
      case None => d
      case Some(t) => match slot
        case Staged => d.(txn := Some(t.(staged := content)))
        case Backup => d.(txn := Some(t.(backup := content)))
        case _ => d.(txn := Some(t.(original := content)))
  }

  function ReadTxnJournal(d: Disk): Option<Journal> {
    if d.txn.Some? then d.txn.value.journal else None
  }

  function StoreJournal(d: Disk, journal: Journal): Disk {
    match d.txn
    case None => d
    case Some(t) => d.(txn := Some(t.(journal := Some(journal))))
  }

  /** Appending behind a torn tail terminates the tail instead of starting a fresh line. */
  function AppendLine(journal: Option<Journal>, line: Line): Journal {
    match journal
    case None => Journal([line], false)
    case Some(j) => Journal(j.lines + [if j.torn then Garbled else line], false)
  }

  /** The operating system refuses an operation on a missing file or directory. */
  predicate Possible(op: Op, d: Disk) {
    match op
    case CreateDir => d.txn.None?
    case Write(slot, _) => slot == Target || d.txn.Some?
    case Rename(from, to) => Read(d, from).Some? && (to == Target || d.txn.Some?)
    case Remove(slot) => Read(d, slot).Some?
    case _ => d.txn.Some?
  }

  function Apply(op: Op, d: Disk): Disk {
    match op
    case CreateDir => d.(txn := Some(EMPTY_TXN))
    case Write(slot, bytes) => Store(d, slot, Some(bytes))
    case StartJournal(existed) => StoreJournal(d, Journal([Record(Some(existed), Prepared)], false))
    case AppendPhase(phase) => StoreJournal(d, AppendLine(ReadTxnJournal(d), Record(None, phase)))
    case Rename(from, to) => Store(Store(d, from, None), to, Read(d, from))
    case Remove(slot) => Store(d, slot, None)
    case RemoveDir => d.(txn := None)
  }

  /** What a write leaves when only its first `n` bytes reach the disk. A torn record always lacks
      its newline. Every other operation is all or nothing. */
  function Tear(op: Op, n: nat, d: Disk): Disk {
    match op
    case Write(slot, bytes) => Store(d, slot, Some(if n < |bytes| then bytes[..n] else bytes))
    case StartJournal(_) => StoreJournal(d, Journal([], n > 0))
    case AppendPhase(_) =>
      var j := if ReadTxnJournal(d).Some? then ReadTxnJournal(d).value else Journal([], false);
      StoreJournal(d, j.(torn := j.torn || n > 0))
    case _ => d
  }

  function Run(d: Disk, ops: seq<Op>): Disk {
    if ops == [] then d else Apply(ops[|ops| - 1], Run(d, ops[..|ops| - 1]))
  }

  /** The disk when a run stops after `k` operations, the next write possibly torn. */
  function TearAt(d: Disk, ops: seq<Op>, k: nat, tear: Option<nat>): Disk {
    if k >= |ops| then Run(d, ops)
    else if tear.None? then Run(d, ops[..k])
    else Tear(ops[k], tear.value, Run(d, ops[..k]))
  }

  /** The same when a journal record reaches the disk whole or not at all. */
  function StopAt(d: Disk, ops: seq<Op>, k: nat, tear: Option<nat>): Disk {
    TearAt(d, ops, k, if k < |ops| && ops[k].AppendPhase? then None else tear)
  }

  predicate ValidTransition(from: Phase, to: Phase) {
    match from
    case Prepared => to == BackingUp
    case BackingUp => to == BackedUp || to == Restoring
    case BackedUp => to == Installing || to == Restoring
    case Installing => to == Installed || to == Restoring
    case Installed => to == Restoring
    case Restoring => to == Restored
    case Restored => false
  }

  function Rank(phase: Phase): nat {
    match phase
    case Prepared => 0
    case BackingUp => 1
    case BackedUp => 2
    case Installing => 3
    case Installed => 4
    case Restoring => 5
    case Restored => 6
  }

  /** A transaction goes on to the next phase, or back by restoring once the report may have moved. */
  lemma TransitionsAre(from: Phase, to: Phase)
    ensures ValidTransition(from, to) <==>
            Rank(to) == Rank(from) + 1 || (to == Restoring && Rank(BackingUp) <= Rank(from) < Rank(Restoring))
    ensures ValidTransition(from, to) ==> Rank(from) < Rank(to)
  {}

  datatype JournalState = NoRecord | Valid(existed: bool, phase: Phase) | Invalid

  /** The phase that complete lines lead to, or None when one is refused. */
  function Replay(phase: Phase, lines: seq<Line>): Option<Phase>
    decreases |lines|
  {
    if lines == [] then Some(phase)
    else if lines[0].Record? && ValidTransition(phase, lines[0].phase)
    then Replay(lines[0].phase, lines[1..])
    else None
  }

  /** The journal as recovery reads it: a torn tail is ignored, a bad complete line is not. */
  function ReadJournal(journal: Option<Journal>): JournalState {
    if journal.None? || journal.value.lines == [] then NoRecord
    else
      var lines := journal.value.lines;
      if !(lines[0].Record? && lines[0].existed.Some? && lines[0].phase == Prepared) then Invalid
      else match Replay(Prepared, lines[1..])
        case None => Invalid
        case Some(phase) => Valid(lines[0].existed.value, phase)
  }

  function State(d: Disk): JournalState { ReadJournal(ReadTxnJournal(d)) }

  /** Line `k` is a record that moves on from the one before it, the first one from `start`. */
  predicate MovesOn(start: Phase, lines: seq<Line>, k: int) {
    && 0 <= k < |lines| && lines[k].Record?
    && if k == 0 then ValidTransition(start, lines[k].phase)
       else lines[k - 1].Record? && ValidTransition(lines[k - 1].phase, lines[k].phase)
  }

  lemma {:induction false} ReplayIs(phase: Phase, lines: seq<Line>)
    ensures Replay(phase, lines).Some? <==> forall k :: 0 <= k < |lines| ==> MovesOn(phase, lines, k)
    ensures lines != [] && Replay(phase, lines).Some? ==>
              lines[|lines| - 1].Record? && lines[|lines| - 1].phase == Replay(phase, lines).value
    decreases |lines|
  {
    if lines == [] {
    } else if MovesOn(phase, lines, 0) {
      var later, next := lines[1..], lines[0].phase;
      ReplayIs(next, later);
      forall k | 0 <= k < |later| ensures MovesOn(next, later, k) <==> MovesOn(phase, lines, k + 1) {
        assert later[k] == lines[k + 1] && (k > 0 ==> later[k - 1] == lines[k]);
      }
      forall k | 1 <= k < |lines| ensures MovesOn(phase, lines, k) <==> MovesOn(next, later, k - 1) {
        assert later[k - 1] == lines[k];
      }
    }
  }

  /** A journal is read exactly when it begins with whether there was a report and every later line moves
      on from the line before it; it then stands where its last line leads. */
  lemma JournalReadIff(journal: Journal)
    ensures ReadJournal(Some(journal)).NoRecord? <==> journal.lines == []
    ensures ReadJournal(Some(journal)).Valid? <==>
            && journal.lines != [] && journal.lines[0].Record?
            && journal.lines[0].existed.Some? && journal.lines[0].phase == Prepared
            && forall k :: 0 <= k < |journal.lines| - 1 ==> MovesOn(Prepared, journal.lines[1..], k)
    ensures ReadJournal(Some(journal)).Valid? ==>
              var last := journal.lines[|journal.lines| - 1];
              last.Record? && ReadJournal(Some(journal)) == Valid(journal.lines[0].existed.value, last.phase)
  {
    if journal.lines != [] {
      ReplayIs(Prepared, journal.lines[1..]);
    }
  }

  lemma {:induction false} RunConcat(d: Disk, a: seq<Op>, b: seq<Op>)
    ensures Run(d, a + b) == Run(Run(d, a), b)
  {
    if b == [] {
      assert a + b == a;
    } else {
      var n := |b| - 1;
      assert (a + b)[..|a + b| - 1] == a + b[..n];
      RunConcat(d, a, b[..n]);
    }
  }

  lemma RunNone(d: Disk)
    ensures Run(d, []) == d
  {}

  lemma RunOne(d: Disk, op: Op)
    ensures Run(d, [op]) == Apply(op, d)
  {
    assert [op][..0] == [];
    assert Run(d, []) == d;
  }

  lemma RunNext(d: Disk, ops: seq<Op>, k: nat)
    requires k < |ops|
    ensures Run(d, ops[..k + 1]) == Apply(ops[k], Run(d, ops[..k]))
  {
    assert ops[..k + 1][..k] == ops[..k];
  }

  lemma {:induction false} ReplayAppend(phase: Phase, lines: seq<Line>, line: Line)
    ensures Replay(phase, lines + [line]) ==
            match Replay(phase, lines)
            case None => None
            case Some(p) => if line.Record? && ValidTransition(p, line.phase) then Some(line.phase) else None
    decreases |lines|
  {
    if lines == [] {
      assert lines + [line] == [line];
      assert [line][1..] == [];
    } else {
      assert (lines + [line])[1..] == lines[1..] + [line];
      if lines[0].Record? && ValidTransition(phase, lines[0].phase) {
        ReplayAppend(lines[0].phase, lines[1..], line);
      }
    }
  }

  /** Appending a record moves the journal along a valid transition, and any other append, or one
      behind a torn tail, leaves a journal that no reader accepts again. */
  lemma {:induction false} AppendReads(j: Journal, phase: Phase)
    requires j.lines != []
    ensures ReadJournal(Some(AppendLine(Some(j), Record(None, phase)))) ==
            match ReadJournal(Some(j))
            case Valid(existed, p) =>
              if !j.torn && ValidTransition(p, phase) then Valid(existed, phase) else Invalid
            case _ => Invalid
  {
    var line := if j.torn then Garbled else Record(None, phase);
    assert (j.lines + [line])[1..] == j.lines[1..] + [line];
    ReplayAppend(Prepared, j.lines[1..], line);
  }
}
