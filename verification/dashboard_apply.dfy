/** Applying a guarded dashboard import: one last read, at most one write, and an audit of what the
    server kept of it. */
module DashboardApply {
  import opened Wrappers
  import opened Sequences
  import opened StringOrder
  import opened JsonTree
  import opened KeyOrder
  import opened LossAudit
  import opened DashboardImport
  import DataViewPlans

  datatype Action = Created | Replaced | Unchanged

  datatype LossRow = LossRow(paths: seq<string>, warnings: seq<string>)

  /** What one dashboard adds to the lists of the report; `failed` says whether it was written. */
  datatype Rows = Rows(succeeded: Option<Action>, failed: Option<bool>, lossy: Option<LossRow>)

  datatype Report = Report(
    succeeded: seq<(string, Action)>, skipped: seq<DataViewPlans.Row>, failed: seq<(string, bool)>,
    lossy: seq<(string, LossRow)>, total: nat)

  /** The state read last is the one the plan was made for. */
  predicate Matches(before: Option<Spec>, current: ReadResult) {
    match before
    case None => current.Missing?
    case Some(snapshot) => current.Found? && SameSpec(snapshot, current.spec)
  }

  function Itself(s: string): string { s }

  function Paths(losses: seq<Loss>): (paths: seq<string>)
    ensures |paths| == |losses| && forall i :: 0 <= i < |paths| ==> paths[i] == losses[i].path
  {
    seq(|losses|, i requires 0 <= i < |losses| => losses[i].path)
  }

  /** The server answered for this very dashboard. */
  predicate Answers(answer: Answer, id: string) { answer.Board? && answer.id == id }

  /** The write was answered, and the answer contains everything that was sent. */
  predicate Stored(desired: Spec, answer: Answer) {
    Answers(answer, desired.id) && Contained(Obj(desired.data), Obj(answer.data))
  }

  /** Nothing to do: the server already has it. */
  predicate Idle(desired: Spec, before: Option<Spec>, current: ReadResult) {
    Matches(before, current) && current.Found? && SameSpec(current.spec, desired)
  }

  /** The requests made for one dashboard: a read; one write if that showed the snapshot and another
      dashboard is wanted; one more read if the answer lost something. */
  predicate Requests(desired: Spec, before: Option<Spec>, events: seq<Event>) {
    && 1 <= |events| <= 3
    && events[0].GetBoard? && events[0].id == desired.id
    && var current := ReadOf(events[0].answer, desired.id);
       && (|events| >= 2 <==> Matches(before, current) && !Idle(desired, before, current))
       && (|events| >= 2 ==> events[1].PutBoard? && events[1].spec == desired)
       && (|events| == 3 <==>
             && |events| >= 2 && Answers(events[1].answer, desired.id)
             && !Stored(desired, events[1].answer))
       && (|events| == 3 ==> events[2].GetBoard? && events[2].id == desired.id)
  }

  /** The warnings of the extra read, which fails unless it is answered for this dashboard. */
  function Warnings(answer: Answer, id: string): seq<string> {
    if Answers(answer, id) then answer.warnings else []
  }

  /** The rows those requests justify. */
  predicate Justified(desired: Spec, before: Option<Spec>, events: seq<Event>, rows: Rows)
    requires Requests(desired, before, events)
  {
    && rows.succeeded == (
         if Idle(desired, before, ReadOf(events[0].answer, desired.id)) then Some(Unchanged)
         else if |events| == 2 &&
         Stored(desired, events[1].answer) then Some(if before.None? then Created else Replaced)
         else None)
    && (rows.lossy.Some? <==> |events| == 3)
    && (|events| == 3 ==>
          rows.lossy == Some(LossRow(
            SortBy(Paths(Losses(Obj(desired.data), Some(Obj(events[1].answer.data)), [])), Itself),
            Warnings(events[2].answer, desired.id))))
    // a failed row: nothing was written, or the server answered for another dashboard
    && (rows.failed.Some? <==>
          || !Matches(before, ReadOf(events[0].answer, desired.id))
          || (|events| == 2 && !Answers(events[1].answer, desired.id))
          || (|events| == 3 && !Answers(events[2].answer, desired.id)))
    && (rows.failed.Some? ==> (rows.failed.value <==> |events| >= 2 && events[1].answer.Board?))
  }

  predicate Session(desired: Spec, before: Option<Spec>, events: seq<Event>, rows: Rows) {
    Requests(desired, before, events) && Justified(desired, before, events, rows)
  }

  /** The number of lists that name a dashboard. */
  function RowCount(rows: Rows): nat {
    (if rows.succeeded.Some? then 1 else 0) + (if rows.failed.Some? then 1 else 0) + if rows.lossy.Some? then 1 else 0
  }

  /** The write was accepted with losses and the read after it was not answered for the dashboard. */
  predicate AuditFailed(desired: Spec, events: seq<Event>) {
    |events| == 3 && events[2].GetBoard? && !Answers(events[2].answer, desired.id)
  }

  /** Every dashboard has a row, and a second one exactly when reading back a lossy write failed. */
  lemma TwoRowsIff(desired: Spec, before: Option<Spec>, events: seq<Event>, rows: Rows)
    requires Session(desired, before, events, rows)
    ensures RowCount(rows) == if AuditFailed(desired, events) then 2 else 1
    ensures RowCount(rows) == 2 <==> rows.lossy.Some? && rows.failed == Some(true)
  {
    hide SameSpec, ValidSpec, Contained;
  }

  /** A new dashboard whose write loses a key, and whose extra read breaks. */
  lemma ListedTwice()
    ensures exists desired: Spec, events: seq<Event>, rows: Rows ::
              ValidSpec(desired) && Session(desired, None, events, rows) && RowCount(rows) == 2
  {
    hide SortBy, Path, DataViewPlans.SkippedAccepted;
    var title := ("title", Str("t"));
    var desired := Spec("a", [title, ("x", Null)]);
    var events := [GetBoard("a", NotFound), PutBoard(desired, Board("a", [title], [])), GetBoard("a", Broken)];
    var losses := Losses(Obj(desired.data), Some(Obj([title])), []);
    var rows := Rows(None, Some(true), Some(LossRow(SortBy(Paths(losses), Itself), [])));
    assert desired.data[1] == ("x", Null) && Get([title], "x").None?;
    assert !Contained(Obj(desired.data), Obj([title]));
    assert 'a' in desired.id && 't' in Title(desired.data);
    assert !HasTimeRangeMode(Obj(desired.data));
    assert Session(desired, None, events, rows);
  }

  /** A lossy row lists exactly the lost paths, each once, in order. */
  lemma LossyPathsAre(desired: Spec, before: Option<Spec>, events: seq<Event>, rows: Rows)
    requires Session(desired, before, events, rows) && rows.lossy.Some? && WellFormed(Obj(desired.data))
    ensures |events| == 3 && events[1].PutBoard? && events[1].answer.Board?
    ensures var losses := Losses(Obj(desired.data), Some(Obj(events[1].answer.data)), []);
            && losses != []
            && AscendingBy(rows.lossy.value.paths, Itself)
            && multiset(rows.lossy.value.paths) == multiset(Paths(losses))
  {
    hide SameSpec, ValidSpec, Contained, Matches;
    var accepted := Obj(events[1].answer.data);
    var losses := Losses(Obj(desired.data), Some(accepted), []);
    var paths := Paths(losses);
    SilentIffContained(Obj(desired.data), accepted, []);
    forall i, j | 0 <= i < j < |paths| ensures Itself(paths[i]) != Itself(paths[j]) {
      LossPathsDistinct(Obj(desired.data), accepted, i, j);
    }
    SortOrder(paths, Itself);
    SortContents(paths, Itself);
  }

  /** Write one dashboard and audit the answer. */
  method ApplyPut(server: Server, desired: Spec, action: Action) returns (rows: Rows, ghost events: seq<Event>)
    requires ValidSpec(desired)
    modifies server
    ensures server.log == old(server.log) + events
    ensures 1 <= |events| <= 2 && events[0].PutBoard? && events[0].spec == desired
    ensures var answer := events[0].answer;
            && (|events| == 2 <==> Answers(answer, desired.id) && !Stored(desired, answer))
            && (rows.succeeded == if Stored(desired, answer) then Some(action) else None)
            && (|events| == 1 ==>
                  && rows.lossy == None
                  && rows.failed == if Answers(answer, desired.id) then None else Some(answer.Board?))
            && (|events| == 2 ==>
                  && events[1].GetBoard? && events[1].id == desired.id
                  && rows.failed == (if Answers(events[1].answer, desired.id) then None else Some(true))
                  && rows.lossy == Some(LossRow(
                       SortBy(Paths(Losses(Obj(desired.data), Some(Obj(answer.data)), [])), Itself),
                       Warnings(events[1].answer, desired.id))))
  {
    hide ValidSpec, Contained, Losses;
    var answer := server.Put(desired);
    events := [PutBoard(desired, answer)];
    if !answer.Board? {
      return Rows(None, Some(false), None), events;
    }
    if answer.id != desired.id {
      return Rows(None, Some(true), None), events;
    }
    var losses := SubsetLosses(Obj(desired.data), Obj(answer.data));
    SilentIffContained(Obj(desired.data), Obj(answer.data), []);
    var paths := Paths(losses);
    if paths == [] {
      return Rows(Some(action), None, None), events;
    }
    paths := SortBy(paths, Itself);
    var audit := server.Get(desired.id);
    events := events + [GetBoard(desired.id, audit)];
    var failed: Option<bool>, warnings: seq<string> := None, [];
    if audit.Board? && audit.id == desired.id {
      warnings := audit.warnings;
    } else {
      failed := Some(true);
    }
    rows := Rows(None, failed, Some(LossRow(paths, warnings)));
  }

  method ImportOne(server: Server, desired: Spec, before: Option<Spec>) returns (rows: Rows, ghost events: seq<Event>)
    requires ValidSpec(desired)
    modifies server
    ensures server.log == old(server.log) + events && Session(desired, before, events, rows)
  {
    hide ValidSpec, Contained, SameSpec, ReadOf, Losses;
    var answer := server.Get(desired.id);
    var current := ReadOf(answer, desired.id);
    ghost var first := [GetBoard(desired.id, answer)];
    events := first;
    match current {
      case Unreadable =>
        return Rows(None, Some(false), None), events;
      case Missing =>
        if before.Some? {
          return Rows(None, Some(false), None), events;
        }
      case Found(spec) =>
        if before.None? || !SameSpec(before.value, spec) {
          return Rows(None, Some(false), None), events;
        }
        if SameSpec(spec, desired) {
          return Rows(Some(Unchanged), None, None), events;
        }
    }
    ghost var more;
    rows, more := ApplyPut(server, desired, if before.None? then Created else Replaced);
    events := first + more;
    assert events[1] == more[0] && (|more| == 2 ==> events[2] == more[1]);
  }

  /** The ids that have an entry, with it, in order. */
  function Listed<T>(specs: seq<Spec>, entries: seq<Option<T>>): seq<(string, T)>
    requires |entries| == |specs|
  {
    if entries == [] then []
    else
      var k := |entries| - 1;
      Listed(specs[..k], entries[..k]) + if entries[k].Some? then [(specs[k].id, entries[k].value)] else []
  }

  function Successes(rows: seq<Rows>): (out: seq<Option<Action>>)
    ensures |out| == |rows|
  {
    seq(|rows|, i requires 0 <= i < |rows| => rows[i].succeeded)
  }

  function Failures(rows: seq<Rows>): (out: seq<Option<bool>>)
    ensures |out| == |rows|
  {
    seq(|rows|, i requires 0 <= i < |rows| => rows[i].failed)
  }

  function LossRows(rows: seq<Rows>): (out: seq<Option<LossRow>>)
    ensures |out| == |rows|
  {
    seq(|rows|, i requires 0 <= i < |rows| => rows[i].lossy)
  }

  /** How many dashboards have a row in two lists. */
  function TwiceListed(rows: seq<Rows>): nat {
    if rows == [] then 0 else TwiceListed(rows[..|rows| - 1]) + if RowCount(rows[|rows| - 1]) == 2 then 1 else 0
  }

  lemma {:induction false} ListsCount(specs: seq<Spec>, rows: seq<Rows>)
    requires |rows| == |specs| && forall i :: 0 <= i < |rows| ==> 1 <= RowCount(rows[i]) <= 2
    ensures |Listed(specs, Successes(rows))| + |Listed(specs, Failures(rows))| + |Listed(specs, LossRows(rows))| ==
            |rows| + TwiceListed(rows)
  {
    if rows == [] {
    } else {
      var k := |rows| - 1;
      ListsCount(specs[..k], rows[..k]);
      assert Successes(rows)[..k] == Successes(rows[..k]);
      assert Failures(rows)[..k] == Failures(rows[..k]);
      assert LossRows(rows)[..k] == LossRows(rows[..k]);
    }
  }

  lemma ListedPush<T>(specs: seq<Spec>, entries: seq<Option<T>>, entry: Option<T>)
    requires |entries| < |specs|
    ensures var k := |entries|;
            Listed(specs[..k + 1], entries + [entry]) ==
            Listed(specs[..k], entries) + if entry.Some? then [(specs[k].id, entry.value)] else []
  {
    var k := |entries|;
    var longer := entries + [entry];
    assert specs[..k + 1][..k] == specs[..k] && longer[..k] == entries && longer[k] == entry;
    assert Listed(specs[..k + 1], longer) ==
           Listed(specs[..k + 1][..k], longer[..k]) + if longer[k].Some? then [(specs[k].id, longer[k].value)] else [];
  }

  lemma RowsPush(rows: seq<Rows>, row: Rows)
    ensures Successes(rows + [row]) == Successes(rows) + [row.succeeded]
    ensures Failures(rows + [row]) == Failures(rows) + [row.failed]
    ensures LossRows(rows + [row]) == LossRows(rows) + [row.lossy]
  {}

  ghost predicate Sessions(plan: Plan, sessions: seq<seq<Event>>, rows: seq<Rows>) {
    && |sessions| == |rows| <= |plan.specs|
    && forall i :: 0 <= i < |rows| ==>
         && plan.specs[i].id in plan.before
         && Session(plan.specs[i], plan.before[plan.specs[i].id], sessions[i], rows[i])
  }

  /** Apply an accepted plan; any other is refused before the first request. The log is one session
      per pending dashboard, each justifying its rows. */
  method ApplyImport(server: Server, plan: Plan)
    returns (report: Option<Report>, ghost rows: seq<Rows>, ghost sessions: seq<seq<Event>>)
    modifies server
    ensures report.Some? <==> Accepted(plan)
    ensures report.None? ==> server.log == old(server.log)
    ensures report.Some? ==>
              && server.log == old(server.log) + Concat(sessions)
              && |rows| == |plan.specs| && Sessions(plan, sessions, rows)
              && report.value == Report(
                   Listed(plan.specs, Successes(rows)), plan.skipped, Listed(plan.specs, Failures(rows)),
                   Listed(plan.specs, LossRows(rows)), plan.total)
    // the lists add up to the total but for the dashboards listed twice
    ensures report.Some? ==>
              |report.value.succeeded| + |report.value.skipped| + |report.value.failed| + |report.value.lossy| ==
              report.value.total + TwiceListed(rows)
  {
    hide Accepted, Session, Concat, Listed, Successes, Failures, LossRows, ValidSpec;
    rows, sessions := [], [];
    var ok := ValidateImportPlan(plan);
    if !ok {
      return None, rows, sessions;
    }
    AcceptedParts(plan);
    NothingListed();
    var succeeded: seq<(string, Action)>, failed: seq<(string, bool)>, lossy: seq<(string, LossRow)> := [], [], [];
    for k := 0 to |plan.specs|
      invariant |rows| == k && Sessions(plan, sessions, rows)
      invariant server.log == old(server.log) + Concat(sessions)
      invariant succeeded == Listed(plan.specs[..k], Successes(rows))
      invariant failed == Listed(plan.specs[..k], Failures(rows))
      invariant lossy == Listed(plan.specs[..k], LossRows(rows))
    {
      var desired := plan.specs[k];
      ghost var events;
      var row;
      row, events := ImportOne(server, desired, plan.before[desired.id]);
      RowsPush(rows, row);
      ListedPush(plan.specs, Successes(rows), row.succeeded);
      ListedPush(plan.specs, Failures(rows), row.failed);
      ListedPush(plan.specs, LossRows(rows), row.lossy);
      ConcatPush(sessions, events);
      if row.succeeded.Some? {
        succeeded := succeeded + [(desired.id, row.succeeded.value)];
      }
      if row.failed.Some? {
        failed := failed + [(desired.id, row.failed.value)];
      }
      if row.lossy.Some? {
        lossy := lossy + [(desired.id, row.lossy.value)];
      }
      rows, sessions := rows + [row], sessions + [events];
    }
    assert plan.specs[..|plan.specs|] == plan.specs;
    forall i | 0 <= i < |rows| ensures 1 <= RowCount(rows[i]) <= 2 {
      TwoRowsIff(plan.specs[i], plan.before[plan.specs[i].id], sessions[i], rows[i]);
    }
    ListsCount(plan.specs, rows);
    report := Some(Report(succeeded, plan.skipped, failed, lossy, plan.total));
  }

  lemma AcceptedParts(plan: Plan)
    requires Accepted(plan)
    ensures plan.total == |plan.specs| + |plan.skipped|
    ensures forall i :: 0 <= i < |plan.specs| ==> plan.specs[i].id in plan.before && ValidSpec(plan.specs[i])
  {
    hide ValidSpec;
    assert forall i :: 0 <= i < |plan.specs| ==> EntryAccepted(plan, plan.specs[i]);
  }

  lemma NothingListed()
    ensures Successes([]) == [] && Failures([]) == [] && LossRows([]) == [] && Concat<Event>([]) == []
    ensures Listed<Action>([], []) == [] && Listed<bool>([], []) == [] && Listed<LossRow>([], []) == []
  {}

  /** The lists of a report add up to the total exactly when no read after a lossy write failed. */
  lemma {:induction false} TwiceListedIff(plan: Plan, sessions: seq<seq<Event>>, rows: seq<Rows>)
    requires Sessions(plan, sessions, rows)
    ensures TwiceListed(rows) == 0 <==> forall i :: 0 <= i < |rows| ==> !AuditFailed(plan.specs[i], sessions[i])
  {
    hide Session, AuditFailed;
    if rows == [] {
    } else {
      var k := |rows| - 1;
      TwiceListedIff(plan, sessions[..k], rows[..k]);
      TwoRowsIff(plan.specs[k], plan.before[plan.specs[k].id], sessions[k], rows[k]);
    }
  }
}
