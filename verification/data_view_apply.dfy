/** Applying a guarded import: one last read before each write, never a retry, never a rollback. */
module DataViewApply {
  import opened Wrappers
  import opened Sequences
  import opened DataViews
  import opened DataViewPlans
  import opened DataViewImport

  datatype RowOutcome = Created | ReplacedRow | Unchanged | FailedRow(applied: bool)

  datatype ImportRow = ImportRow(id: string, outcome: RowOutcome)

  datatype Report = Report(succeeded: seq<ImportRow>, skipped: seq<Row>, failed: seq<ImportRow>, total: nat)

  /** The state read last is the one the plan was made for. */
  predicate Matches(before: Option<Spec>, current: ReadResult) {
    match before
    case None => current == Missing
    case Some(snapshot) => current == Found(snapshot)
  }

  predicate Acknowledged(events: seq<Event>) {
    exists i :: 0 <= i < |events| && events[i].Acknowledged()
  }

  /** The only requests that may change the view `desired.id`, and when: a base update comes first,
      and none is sent twice. `i` is the position in the session. */
  predicate PlannedWrite(event: Event, i: nat, desired: Spec, before: Option<Spec>, patch: Option<Patch>) {
    match event
    case ReadView(_, _) => false
    case CreateView(id, spec, _) => i == 1 && before.None? && id == desired.id && spec == desired
    case UpdateView(id, update, _) =>
      i == 1 && before.Some? && id == desired.id && patch.Some? && patch.value.base == Some(update)
    case UpdateFields(id, metadata, _) =>
      && before.Some? && id == desired.id && patch.Some? && patch.value.fieldMetadata == metadata && metadata != map[]
      && i == if patch.value.base.Some? then 2 else 1
  }

  /** Everything there is to write was sent and acknowledged. */
  predicate Written(desired: Spec, before: Option<Spec>, patch: Option<Patch>, events: seq<Event>) {
    if before.None? then CreateView(desired.id, desired, true) in events
    else
      && patch.Some? && patch.value != NO_PATCH
      && (patch.value.base.Some? ==> UpdateView(desired.id, patch.value.base.value, true) in events)
      && (patch.value.fieldMetadata != map[] ==> UpdateFields(desired.id, patch.value.fieldMetadata, true) in events)
  }

  /** Why a view is not imported: it changed since the preview, there is no patch for it, a write was
      not acknowledged, or the last read does not show what was written. */
  predicate Failing(desired: Spec, before: Option<Spec>, patch: Option<Patch>, events: seq<Event>)
    requires events != [] && events[0].ReadView?
  {
    var last := events[|events| - 1];
    || (events == [events[0]] && (!Matches(before, events[0].result) || (before.Some? && patch.None?)))
    || (last.Write() && !last.Acknowledged())
    || (Written(desired, before, patch, events) && last.ReadView? && last.result != Found(desired))
  }

  /** What one import row may rest on, whatever others did to the server meanwhile. */
  predicate Justified(
    desired: Spec, before: Option<Spec>, patch: Option<Patch>, events: seq<Event>, outcome: RowOutcome) {
    && events != [] && events[0].ReadView?
    && (forall i :: 0 <= i < |events| ==> events[i].id == desired.id)
    // every write follows the first read directly, and that read showed the snapshot
    && (forall i :: 1 <= i < |events| && events[i].Write() ==>
          Matches(before, events[0].result) && PlannedWrite(events[i], i, desired, before, patch))
    // nothing is sent after a write that failed
    && (forall i :: 1 <= i < |events| - 1 ==> events[i].Acknowledged())
    && match outcome
       case Created =>
         && before.None? && Written(desired, before, patch, events)
         && events[|events| - 1] == ReadView(desired.id, Found(desired))
       case ReplacedRow =>
         && before.Some? && Written(desired, before, patch, events)
         && events[|events| - 1] == ReadView(desired.id, Found(desired))
       case Unchanged =>
         && patch == Some(NO_PATCH) && before.Some? && events == [ReadView(desired.id, Found(before.value))]
       case FailedRow(applied) =>
         && (applied <==> Acknowledged(events))
         && Failing(desired, before, patch, events)
  }

  /** The requests and their answers leave no choice of the row. */
  lemma OutcomeDetermined(
    desired: Spec, before: Option<Spec>, patch: Option<Patch>, events: seq<Event>, a: RowOutcome, b: RowOutcome)
    requires Justified(desired, before, patch, events, a) && Justified(desired, before, patch, events, b)
    ensures a == b
  {
    if Written(desired, before, patch, events) {
      assert exists i :: 0 <= i < |events| && events[i].Write();
    }
  }

  /** Read back what a write stored. */
  method Confirm(server: Server, desired: Spec, success: RowOutcome)
    returns (outcome: RowOutcome, ghost result: ReadResult)
    modifies server
    ensures server.log == old(server.log) + [ReadView(desired.id, result)]
    ensures outcome == if result == Found(desired) then success else FailedRow(true)
  {
    var stored := server.ReadSpec(desired.id);
    result := stored;
    outcome := if stored == Found(desired) then success else FailedRow(true);
  }

  method CreateOne(server: Server, desired: Spec) returns (outcome: RowOutcome, ghost events: seq<Event>)
    modifies server
    ensures server.log == old(server.log) + events
    ensures Justified(desired, None, None, [ReadView(desired.id, Missing)] + events, outcome)
  {
    var ok := server.Create(desired);
    events := [CreateView(desired.id, desired, ok)];
    if !ok {
      return FailedRow(false), events;
    }
    ghost var result;
    outcome, result := Confirm(server, desired, Created);
    events := events + [ReadView(desired.id, result)];
    assert ([ReadView(desired.id, Missing)] + events)[1].Acknowledged();
  }

  /** The writes of one replacement, in order, each with its acknowledgement; None if not reached. */
  function ReplacementWrites(id: string, patch: Patch, base: Option<bool>, fields: Option<bool>): seq<Event> {
    (if patch.base.Some? && base.Some? then [UpdateView(id, patch.base.value, base.value)] else []) +
    (if fields.Some? then [UpdateFields(id, patch.fieldMetadata, fields.value)] else [])
  }

  lemma ReplacementJustified(
    desired: Spec, snapshot: Spec, patch: Patch, base: Option<bool>, fields: Option<bool>, last: Option<ReadResult>)
    requires patch != NO_PATCH
    requires base.Some? <==> patch.base.Some?
    requires fields.Some? ==> patch.fieldMetadata != map[] && base != Some(false)
    requires last.Some? ==>
               && base != Some(false)
               && if patch.fieldMetadata != map[] then fields == Some(true) else fields.None?
    requires last.None? ==> base == Some(false) || fields == Some(false)
    ensures var events := [ReadView(desired.id, Found(snapshot))] + ReplacementWrites(desired.id, patch, base, fields) +
                          if last.Some? then [ReadView(desired.id, last.value)] else [];
            Justified(desired, Some(snapshot), Some(patch), events,
                      if last == Some(Found(desired)) then ReplacedRow
                      else FailedRow(base == Some(true) || fields == Some(true)))
  {
    var events := [ReadView(desired.id, Found(snapshot))] + ReplacementWrites(desired.id, patch, base, fields) +
                  if last.Some? then [ReadView(desired.id, last.value)] else [];
    if base == Some(true) {
      assert events[1].Acknowledged();
    } else if fields == Some(true) {
      assert events[1].Acknowledged();
    }
  }

  method ReplaceOne(server: Server, desired: Spec, ghost snapshot: Spec, patch: Patch)
    returns (outcome: RowOutcome, ghost events: seq<Event>)
    requires patch != NO_PATCH
    modifies server
    ensures server.log == old(server.log) + events
    ensures Justified(desired, Some(snapshot), Some(patch), [ReadView(desired.id, Found(snapshot))] + events, outcome)
  {
    hide Justified;
    ghost var first := [ReadView(desired.id, Found(snapshot))];
    ghost var base: Option<bool>, fields: Option<bool> := None, None;
    events := [];
    var applied := false;
    if patch.base.Some? {
      var ok := server.UpdateBase(desired.id, patch.base.value);
      base := Some(ok);
      events := ReplacementWrites(desired.id, patch, base, None);
      if !ok {
        ReplacementJustified(desired, snapshot, patch, base, None, None);
        assert first + events == first + events + [];
        return FailedRow(applied), events;
      }
      applied := true;
    }
    if patch.fieldMetadata != map[] {
      var ok := server.UpdateMetadata(desired.id, patch.fieldMetadata);
      fields := Some(ok);
      events := ReplacementWrites(desired.id, patch, base, fields);
      if !ok {
        ReplacementJustified(desired, snapshot, patch, base, fields, None);
        assert first + events == first + events + [];
        return FailedRow(applied), events;
      }
      applied := true;
    }
    ghost var result;
    outcome, result := Confirm(server, desired, ReplacedRow);
    ReplacementJustified(desired, snapshot, patch, base, fields, Some(result));
    assert first + (events + [ReadView(desired.id, result)]) == first + events + [ReadView(desired.id, result)];
    events := events + [ReadView(desired.id, result)];
  }

  method ImportOne(server: Server, desired: Spec, before: Option<Spec>, patch: Option<Patch>)
    returns (outcome: RowOutcome, ghost events: seq<Event>)
    modifies server
    ensures server.log == old(server.log) + events
    ensures Justified(desired, before, patch, events, outcome)
  {
    var current := server.ReadSpec(desired.id);
    events := [ReadView(desired.id, current)];
    match current {
      case Unreadable =>
        return FailedRow(false), events;
      case Missing =>
        if before.Some? {
          return FailedRow(false), events;
        }
      case Found(spec) =>
        if before.None? || before.value != spec {
          return FailedRow(false), events;
        }
    }
    ghost var more;
    if before.None? {
      outcome, more := CreateOne(server, desired);
      events := events + more;
      CreateNeedsNoPatch(desired, patch, events, outcome);
    } else if patch.None? {
      outcome := FailedRow(false);
    } else if patch.value == NO_PATCH {
      outcome := Unchanged;
    } else {
      outcome, more := ReplaceOne(server, desired, before.value, patch.value);
      events := events + more;
    }
  }

  lemma CreateNeedsNoPatch(desired: Spec, patch: Option<Patch>, events: seq<Event>, outcome: RowOutcome)
    requires Justified(desired, None, None, events, outcome)
    ensures Justified(desired, None, patch, events, outcome)
  {}

  function Select(rows: seq<ImportRow>, failed: bool): seq<ImportRow> {
    if rows == [] then []
    else
      var last := rows[|rows| - 1];
      Select(rows[..|rows| - 1], failed) + if last.outcome.FailedRow? == failed then [last] else []
  }

  lemma {:induction false} SelectCounts(rows: seq<ImportRow>)
    ensures |Select(rows, false)| + |Select(rows, true)| == |rows|
  {
    if rows == [] {
    } else {
      SelectCounts(rows[..|rows| - 1]);
    }
  }

  /** The requests made for one pending view justify its row. */
  predicate Session(plan: ImportPlan, spec: Spec, events: seq<Event>, row: ImportRow) {
    && row.id == spec.id && spec.id in plan.before
    && Justified(spec, plan.before[spec.id], Lookup(plan.patches, spec.id), events, row.outcome)
  }

  /** The first k rows and the sessions behind them. */
  ghost predicate Sessions(plan: ImportPlan, k: nat, sessions: seq<seq<Event>>, rows: seq<ImportRow>)
    requires k <= |plan.specs|
  {
    && |rows| == |sessions| == k
    && forall i :: 0 <= i < k ==> Session(plan, plan.specs[i], sessions[i], rows[i])
  }

  lemma NoSessions(plan: ImportPlan)
    ensures Sessions(plan, 0, [], []) && Concat<Event>([]) == [] && Select([], false) == [] && Select([], true) == []
  {}

  lemma SessionsPush(
    plan: ImportPlan, k: nat, sessions: seq<seq<Event>>, rows: seq<ImportRow>, events: seq<Event>, row: ImportRow)
    requires k < |plan.specs| && Sessions(plan, k, sessions, rows)
    requires row.id == plan.specs[k].id && row.id in plan.before
    requires Justified(plan.specs[k], plan.before[row.id], Lookup(plan.patches, row.id), events, row.outcome)
    ensures Sessions(plan, k + 1, sessions + [events], rows + [row])
    ensures Concat(sessions + [events]) == Concat(sessions) + events
    ensures Select(rows + [row], false) == Select(rows, false) + if row.outcome.FailedRow? then [] else [row]
    ensures Select(rows + [row], true) == Select(rows, true) + if row.outcome.FailedRow? then [row] else []
  {
    hide Justified, Concat, Lookup;
    ConcatPush(sessions, events);
    var allRows := rows + [row];
    assert allRows[..|allRows| - 1] == rows;
    assert Session(plan, plan.specs[k], events, row);
    assert Select(rows, false) + [] == Select(rows, false) && Select(rows, true) + [] == Select(rows, true);
  }

  /** Apply an accepted plan; any other is refused before the first request. The log is one session
      per pending view, each justifying its row. */
  method ApplyImport(server: Server, plan: ImportPlan)
    returns (report: Option<Report>, ghost rows: seq<ImportRow>, ghost sessions: seq<seq<Event>>)
    modifies server
    ensures report.Some? <==> Accepted(plan)
    ensures report.None? ==> server.log == old(server.log)
    ensures report.Some? ==>
              && server.log == old(server.log) + Concat(sessions)
              && Sessions(plan, |plan.specs|, sessions, rows)
              && report.value == Report(Select(rows, false), plan.skipped, Select(rows, true), plan.total)
              && |report.value.succeeded| + |report.value.skipped| + |report.value.failed| == report.value.total
  {
    hide Justified, Accepted, Sessions, Session, Concat, Select, Lookup;
    rows, sessions := [], [];
    var ok := ValidateImportPlan(plan);
    if !ok {
      return None, rows, sessions;
    }
    AcceptedParts(plan);
    NoSessions(plan);
    var succeeded: seq<ImportRow>, failed: seq<ImportRow> := [], [];
    for k := 0 to |plan.specs|
      invariant server.log == old(server.log) + Concat(sessions)
      invariant succeeded == Select(rows, false) && failed == Select(rows, true)
      invariant |rows| == k && Sessions(plan, k, sessions, rows)
    {
      var desired := plan.specs[k];
      assert desired.id in IdSet(plan.specs);
      ghost var events;
      var outcome;
      outcome, events := ImportOne(server, desired, plan.before[desired.id], Lookup(plan.patches, desired.id));
      var row := ImportRow(desired.id, outcome);
      SessionsPush(plan, k, sessions, rows, events, row);
      if outcome.FailedRow? {
        failed := failed + [row];
      } else {
        succeeded := succeeded + [row];
      }
      rows, sessions := rows + [row], sessions + [events];
    }
    SelectCounts(rows);
    report := Some(Report(succeeded, plan.skipped, failed, plan.total));
  }

  lemma AcceptedParts(plan: ImportPlan)
    requires Accepted(plan)
    ensures plan.total == |plan.specs| + |plan.skipped| && plan.before.Keys == IdSet(plan.specs)
  {}

  /** A replacement write of an accepted plan is sent to exactly the view it was computed from, and
      applied to that view it yields the desired one. */
  lemma WritesReachDesired(plan: ImportPlan, i: nat, events: seq<Event>, row: ImportRow, k: nat)
    requires Accepted(plan) && i < |plan.specs| && Session(plan, plan.specs[i], events, row)
    requires 1 <= k < |events| && (events[k].UpdateView? || events[k].UpdateFields?)
    ensures events[0].ReadView? && events[0].result.Found?
    ensures var patch := PatchOf(events[0].result.spec, plan.specs[i]);
            && Equivalent(ApplyPatch(events[0].result.spec, patch), plan.specs[i])
            && (if events[k].UpdateView? then patch.base == Some(events[k].update)
                else patch.fieldMetadata == events[k].metadata)
  {
    hide PatchOf, Supported, Equivalent, PreviewDetails, SkippedAccepted;
    assert EntryAccepted(plan, plan.specs[i]);
    assert events[k].Write();
    PatchReachesDesired(plan.before[plan.specs[i].id].value, plan.specs[i]);
  }
}
