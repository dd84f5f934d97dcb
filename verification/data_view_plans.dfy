/** Import plans of `data_views_ops.rs`: what the planner builds and what the validator accepts. */
module DataViewPlans {
  import opened Wrappers
  import opened Decimal
  import opened StringOrder
  import opened DataViews

  /** A JSON row with its keys in written order. */
  datatype Row = Object(entries: seq<(string, Json)>) | Other

  datatype Preview = Preview(action: string, details: seq<string>, targets: seq<string>)

  datatype ImportPlan = ImportPlan(
    preview: Preview, specs: seq<Spec>, before: map<string, Option<Spec>>, patches: map<string, Patch>,
    skipped: seq<Row>, total: nat, overwrite: bool)

  function ImportPrefix(count: nat): string { "Import " + Digits(count) + " data view(s) from " }

  function PreviewLine(spec: Spec, before: Option<Spec>): string {
    match before
    case None => spec.id + "  create  " + spec.title
    case Some(current) =>
      if current == spec then spec.id + "  no-op  " + spec.title
      else spec.id + "  replace  " + current.title + " -> " + spec.title
  }

  function PreviewDetails(specs: seq<Spec>, before: map<string, Option<Spec>>): seq<string> {
    if specs == [] then []
    else
      (if specs[0].id in before then [PreviewLine(specs[0], before[specs[0].id])] else []) +
      PreviewDetails(specs[1..], before)
  }

  /** One line per data view, in order, saying what the snapshot makes of it. */
  lemma {:induction false} PreviewDetailsAre(specs: seq<Spec>, before: map<string, Option<Spec>>)
    requires forall i :: 0 <= i < |specs| ==> specs[i].id in before
    ensures var lines := PreviewDetails(specs, before);
            && |lines| == |specs|
            && forall i :: 0 <= i < |specs| ==>
                 var (spec, current) := (specs[i], before[specs[i].id]);
                 if current.None? then lines[i] == spec.id + "  create  " + spec.title
                 else if current.value == spec then lines[i] == spec.id + "  no-op  " + spec.title
                 else lines[i] == spec.id + "  replace  " + current.value.title + " -> " + spec.title
  {
    if specs == [] {
    } else {
      var rest := specs[1..];
      forall i | 0 <= i < |rest| ensures rest[i] == specs[i + 1] && rest[i].id in before {}
      PreviewDetailsAre(rest, before);
      assert PreviewDetails(specs, before) ==
             [PreviewLine(specs[0], before[specs[0].id])] + PreviewDetails(rest, before);
    }
  }

  function Ids(specs: seq<Spec>): (ids: seq<string>)
    ensures |ids| == |specs| && forall i :: 0 <= i < |ids| ==> ids[i] == specs[i].id
  {
    seq(|specs|, i requires 0 <= i < |specs| => specs[i].id)
  }

  function IdSet(specs: seq<Spec>): set<string> { set i | 0 <= i < |specs| :: specs[i].id }

  predicate Canonical(spec: Spec) { Valid(spec) && spec.typeMeta != Some(map[]) }

  function SkippedRow(id: string): Row { Object([("id", Str(id)), ("reason", Str("exists"))]) }

  function RowId(row: Row): string {
    if row.Object? && |row.entries| > 0 && row.entries[0].1.Str? then row.entries[0].1.text else ""
  }

  predicate IsSkippedRow(row: Row) { row == SkippedRow(RowId(row)) && !Blank(RowId(row)) }

  function RowIds(rows: seq<Row>): (ids: seq<string>)
    ensures |ids| == |rows| && forall i :: 0 <= i < |ids| ==> ids[i] == RowId(rows[i])
  {
    seq(|rows|, i requires 0 <= i < |rows| => RowId(rows[i]))
  }

  /** The plan entry of one pending view: created without a patch, or replaced under --overwrite
      by exactly the recomputed patch. */
  predicate EntryAccepted(plan: ImportPlan, spec: Spec) {
    spec.id in plan.before &&
    match plan.before[spec.id]
    case None => spec.id !in plan.patches
    case Some(snapshot) =>
      && Canonical(snapshot) && snapshot.id == spec.id && plan.overwrite
      && Supported(snapshot, spec)
      && spec.id in plan.patches && plan.patches[spec.id] == PatchOf(snapshot, spec)
  }

  predicate SkippedAccepted(skipped: seq<Row>, pending: set<string>) {
    && (forall i :: 0 <= i < |skipped| ==> IsSkippedRow(skipped[i]) && RowId(skipped[i]) !in pending)
    && Ascending(RowIds(skipped))
  }

  function Replaced(specs: seq<Spec>, before: map<string, Option<Spec>>): set<string> {
    set i | 0 <= i < |specs| && specs[i].id in before && before[specs[i].id].Some? :: specs[i].id
  }

  /** What a plan must satisfy before anything is sent. */
  predicate Accepted(plan: ImportPlan) {
    && plan.total > 0 && plan.total == |plan.specs| + |plan.skipped|
    && (forall i :: 0 <= i < |plan.specs| ==> Canonical(plan.specs[i]))
    && Ascending(Ids(plan.specs))
    && (plan.skipped != [] ==> !plan.overwrite)
    && SkippedAccepted(plan.skipped, IdSet(plan.specs))
    && plan.preview.targets == Ids(plan.specs)
    && ImportPrefix(|plan.specs|) < plan.preview.action
    && plan.preview.details == PreviewDetails(plan.specs, plan.before)
    && plan.before.Keys == IdSet(plan.specs)
    && (forall i :: 0 <= i < |plan.specs| ==> EntryAccepted(plan, plan.specs[i]))
    && plan.patches.Keys == Replaced(plan.specs, plan.before)
  }

  // ---- the validator ----

  method ValidatePending(specs: seq<Spec>) returns (pending: Option<seq<string>>)
    ensures pending.Some? <==>
            (forall i :: 0 <= i < |specs| ==> Canonical(specs[i])) && Ascending(Ids(specs))
    ensures pending.Some? ==> pending.value == Ids(specs)
  {
    var ids: seq<string> := [];
    for k := 0 to |specs|
      invariant ids == Ids(specs[..k]) && Ascending(ids)
      invariant forall i :: 0 <= i < k ==> Canonical(specs[i])
    {
      if !Canonical(specs[k]) {
        return None;
      }
      if ids != [] && !Below(ids[|ids| - 1], specs[k].id) {
        assert Ids(specs)[k - 1] == ids[k - 1] && Ids(specs)[k] == specs[k].id;
        return None;
      }
      AscendingPush(ids, specs[k].id);
      ids := ids + [specs[k].id];
      assert ids == Ids(specs[..k + 1]);
    }
    assert specs[..|specs|] == specs;
    return Some(ids);
  }

  method ValidateSkipped(skipped: seq<Row>, pending: set<string>) returns (ok: bool)
    ensures ok <==> SkippedAccepted(skipped, pending)
  {
    hide Blank, Below;
    var previous: Option<string> := None;
    for k := 0 to |skipped|
      invariant SkippedAccepted(skipped[..k], pending)
      invariant previous == if k == 0 then None else Some(RowId(skipped[k - 1]))
    {
      var row := skipped[k];
      var id := RowId(row);
      if !(row.Object? && |row.entries| == 2 && row.entries[0].0 == "id" && row.entries[1].0 == "reason" &&
           row.entries[0].1.Str? && !Blank(id) && row.entries[1].1 == Str("exists")) {
        return false;
      }
      if previous.Some? && !Below(previous.value, id) {
        assert RowIds(skipped)[k - 1] == previous.value && RowIds(skipped)[k] == id;
        return false;
      }
      if id in pending {
        return false;
      }
      assert row.entries == [("id", Str(id)), ("reason", Str("exists"))];
      AscendingPush(RowIds(skipped[..k]), id);
      assert RowIds(skipped[..k + 1]) == RowIds(skipped[..k]) + [id];
      previous := Some(id);
    }
    assert skipped[..|skipped|] == skipped;
    return true;
  }

  method ValidateEntries(plan: ImportPlan) returns (ok: bool)
    requires plan.before.Keys == IdSet(plan.specs)
    ensures ok <==> && (forall i :: 0 <= i < |plan.specs| ==> EntryAccepted(plan, plan.specs[i]))
                    && plan.patches.Keys == Replaced(plan.specs, plan.before)
  {
    var patchIds: set<string> := {};
    for k := 0 to |plan.specs|
      invariant forall i :: 0 <= i < k ==> EntryAccepted(plan, plan.specs[i])
      invariant patchIds == Replaced(plan.specs[..k], plan.before)
    {
      var spec := plan.specs[k];
      if spec.id !in plan.before {
        return false;
      }
      match plan.before[spec.id] {
        case None =>
          if spec.id in plan.patches {
            return false;
          }
        case Some(snapshot) =>
          if !Canonical(snapshot) || snapshot.id != spec.id || !plan.overwrite {
            return false;
          }
          var expected := BuildPatch(snapshot, spec);
          if expected.None? || spec.id !in plan.patches || plan.patches[spec.id] != expected.value {
            return false;
          }
          patchIds := patchIds + {spec.id};
      }
      ReplacedStep(plan.specs, plan.before, k);
    }
    assert plan.specs[..|plan.specs|] == plan.specs;
    return plan.patches.Keys == patchIds;
  }

  lemma ReplacedStep(specs: seq<Spec>, before: map<string, Option<Spec>>, k: nat)
    requires k < |specs|
    ensures Replaced(specs[..k + 1], before) ==
            Replaced(specs[..k], before) +
            if specs[k].id in before && before[specs[k].id].Some? then {specs[k].id} else {}
  {
    assert specs[..k + 1] == specs[..k] + [specs[k]];
    forall id | id in Replaced(specs[..k + 1], before)
      ensures id in Replaced(specs[..k], before) || id == specs[k].id
    {
      var i :| 0 <= i < k + 1 && specs[..k + 1][i].id == id && id in before && before[id].Some?;
      if i < k {
        assert specs[..k][i].id == id;
      }
    }
    forall id | id in Replaced(specs[..k], before) ensures id in Replaced(specs[..k + 1], before) {
      var i :| 0 <= i < k && specs[..k][i].id == id && id in before && before[id].Some?;
      assert specs[..k + 1][i].id == id;
    }
    assert specs[..k + 1][k].id == specs[k].id;
  }

  method ValidateImportPlan(plan: ImportPlan) returns (ok: bool)
    ensures ok <==> Accepted(plan)
  {
    hide EntryAccepted, SkippedAccepted, PreviewDetails, ImportPrefix, Replaced, Ascending;
    if plan.total == 0 || plan.total != |plan.specs| + |plan.skipped| {
      return false;
    }
    var pending := ValidatePending(plan.specs);
    if pending.None? || (plan.skipped != [] && plan.overwrite) {
      return false;
    }
    ok := ValidateSkipped(plan.skipped, IdSet(plan.specs));
    if !ok || plan.preview.targets != pending.value {
      return false;
    }
    var prefix := ImportPrefix(|plan.specs|);
    if !(prefix <= plan.preview.action) || plan.preview.action[|prefix|..] == [] {
      return false;
    }
    if plan.preview.details != PreviewDetails(plan.specs, plan.before) || plan.before.Keys != IdSet(plan.specs) {
      return false;
    }
    ok := ValidateEntries(plan);
  }
}
