/** Planning and applying a data-view import against a server that anyone may change between any
    two requests: its answers are arbitrary. */
module DataViewImport {
  import opened Wrappers
  import opened Decimal
  import opened StringOrder
  import opened DataViews
  import opened DataViewPlans

  datatype Answer = View(spec: Spec) | Done | NotFound | Broken

  /** A view that was read and decoded, its absence, or a failed or malformed read. */
  datatype ReadResult = Found(spec: Spec) | Missing | Unreadable

  datatype Event =
    | ReadView(id: string, result: ReadResult)
    | CreateView(id: string, spec: Spec, ok: bool)
    | UpdateView(id: string, update: Update, ok: bool)
    | UpdateFields(id: string, metadata: map<string, Json>, ok: bool)
  {
    predicate Write() { !ReadView? }

    predicate Acknowledged() { !ReadView? && ok }
  }

  /** Decoding turns an empty typeMeta into an absent one. */
  function Decoded(spec: Spec): Spec {
    if spec.typeMeta == Some(map[]) then spec.(typeMeta := None) else spec
  }

  /** Only an empty typeMeta is changed. */
  lemma DecodedIs(spec: Spec)
    ensures spec.typeMeta != Some(map[]) ==> Decoded(spec) == spec
    ensures spec.typeMeta == Some(map[]) ==> Decoded(spec) == spec.(typeMeta := None)
    ensures Valid(spec) <==> Canonical(Decoded(spec))
    ensures Canonical(spec) <==> Valid(spec) && Decoded(spec) == spec
  {}

  /** A decoded view counts only when it is portable and carries the requested id. */
  function ReadOf(answer: Answer, id: string): ReadResult {
    match answer
    case NotFound => Missing
    case View(spec) => if Valid(spec) && spec.id == id then Found(Decoded(spec)) else Unreadable
    case _ => Unreadable
  }

  class Server {
    var answers: seq<Answer>
    var log: seq<Event>

    method Request() returns (answer: Answer)
      modifies this`answers
      ensures answer == if old(answers) == [] then Broken else old(answers)[0]
    {
      answer := Broken;
      if answers != [] {
        answer := answers[0];
        answers := answers[1..];
      }
    }

    method ReadSpec(id: string) returns (result: ReadResult)
      modifies this
      ensures log == old(log) + [ReadView(id, result)]
      ensures result.Found? ==> Canonical(result.spec) && result.spec.id == id
      ensures var answer := if old(answers) == [] then Broken else old(answers)[0];
              && (result.Missing? <==> answer.NotFound?)
              && (result.Found? <==> answer.View? && Valid(answer.spec) && answer.spec.id == id)
              && (result.Found? ==> result.spec == answer.spec.(
                    typeMeta := if answer.spec.typeMeta == Some(map[]) then None else answer.spec.typeMeta))
    {
      var answer := Request();
      result := ReadOf(answer, id);
      log := log + [ReadView(id, result)];
    }

    method Create(spec: Spec) returns (ok: bool)
      modifies this
      ensures log == old(log) + [CreateView(spec.id, spec, ok)]
    {
      var answer := Request();
      ok := answer.View? || answer.Done?;
      log := log + [CreateView(spec.id, spec, ok)];
    }

    method UpdateBase(id: string, update: Update) returns (ok: bool)
      modifies this
      ensures log == old(log) + [UpdateView(id, update, ok)]
    {
      var answer := Request();
      ok := answer.View? || answer.Done?;
      log := log + [UpdateView(id, update, ok)];
    }

    method UpdateMetadata(id: string, metadata: map<string, Json>) returns (ok: bool)
      modifies this
      ensures log == old(log) + [UpdateFields(id, metadata, ok)]
    {
      var answer := Request();
      ok := answer.View? || answer.Done?;
      log := log + [UpdateFields(id, metadata, ok)];
    }
  }

  // ---- the planner ----

  predicate DistinctIds(specs: seq<Spec>) {
    forall i, j :: 0 <= i < j < |specs| ==> specs[i].id != specs[j].id
  }

  lemma SortedById(specs: seq<Spec>)
    requires DistinctIds(specs)
    ensures var sorted := SortBy(specs, (spec: Spec) => spec.id);
            Ascending(Ids(sorted)) && multiset(sorted) == multiset(specs)
  {
    var key := (spec: Spec) => spec.id;
    SortContents(specs, key);
    SortOrder(specs, key);
  }

  /** Fully validate the decoded artifact: portable specs, unique ids, sorted. */
  method ValidateArtifact(artifact: seq<Spec>) returns (specs: Option<seq<Spec>>)
    ensures specs.Some? <==> (forall i :: 0 <= i < |artifact| ==> Valid(artifact[i])) && DistinctIds(artifact)
    ensures specs.Some? ==>
              && Ascending(Ids(specs.value))
              && multiset(specs.value) == multiset(seq(|artifact|,
                i requires 0 <= i < |artifact| => Decoded(artifact[i])))
  {
    var seen: set<string> := {};
    var decoded: seq<Spec> := [];
    var duplicates := false;
    for k := 0 to |artifact|
      invariant forall i :: 0 <= i < k ==> Valid(artifact[i])
      invariant decoded == seq(k, i requires 0 <= i < k => Decoded(artifact[i]))
      invariant forall id :: id in seen <==> exists i :: 0 <= i < k && artifact[i].id == id
      invariant duplicates <==> exists i, j :: 0 <= i < j < k && artifact[i].id == artifact[j].id
    {
      if !Valid(artifact[k]) {
        return None;
      }
      duplicates := duplicates || artifact[k].id in seen;
      seen := seen + {artifact[k].id};
      decoded := decoded + [Decoded(artifact[k])];
    }
    if duplicates {
      return None;
    }
    SortedById(decoded);
    return Some(SortBy(decoded, (spec: Spec) => spec.id));
  }

  /** One portable view, or its absence, per id. */
  predicate Snapshots(specs: seq<Spec>, before: map<string, Option<Spec>>) {
    && before.Keys == IdSet(specs)
    && forall id :: id in before && before[id].Some? ==> Canonical(before[id].value) && before[id].value.id == id
  }

  /** The answer that a snapshot was taken from. */
  function Answered(before: map<string, Option<Spec>>, id: string): ReadResult {
    if Exists(before, id) then Found(before[id].value) else Missing
  }

  /** One read per id, in order, each showing the snapshot. */
  function Reads(specs: seq<Spec>, before: map<string, Option<Spec>>): (events: seq<Event>)
    ensures |events| == |specs| && ReadsOnly(events)
  {
    seq(|specs|, i requires 0 <= i < |specs| => ReadView(specs[i].id, Answered(before, specs[i].id)))
  }

  lemma ReadsPush(specs: seq<Spec>, before: map<string, Option<Spec>>, spec: Spec, current: Option<Spec>)
    requires before.Keys == IdSet(specs) && spec.id !in before
    ensures Reads(specs + [spec], before[spec.id := current]) ==
            Reads(specs, before) + [ReadView(spec.id, if current.Some? then Found(current.value) else Missing)]
  {
    assert forall i :: 0 <= i < |specs| ==> specs[i].id in before;
  }

  predicate ReadsOnly(events: seq<Event>) { forall i :: 0 <= i < |events| ==> events[i].ReadView? }

  /** An unreadable answer, or a view that is there although it must be new. */
  predicate Forbids(event: Event, mustBeNew: bool) {
    event.ReadView? && (event.result.Unreadable? || (mustBeNew && event.result.Found?))
  }

  lemma SnapshotsPush(specs: seq<Spec>, before: map<string, Option<Spec>>, spec: Spec, current: Option<Spec>)
    requires Snapshots(specs, before)
    requires current.Some? ==> Canonical(current.value) && current.value.id == spec.id
    ensures Snapshots(specs + [spec], before[spec.id := current])
  {
    hide Canonical;
    IdSetPush(specs, spec);
  }

  /** Read every id once. None when a read fails or a view that must be new exists. */
  method ReadSnapshots(server: Server?, specs: seq<Spec>, mustBeNew: bool)
    returns (before: Option<map<string, Option<Spec>>>, ghost events: seq<Event>)
    requires Ascending(Ids(specs))
    modifies server
    ensures before.Some? ==> Snapshots(specs, before.value)
    ensures before.Some? && (mustBeNew || server == null) ==>
              forall id :: id in before.value ==> before.value[id].None?
    ensures server != null ==> server.log == old(server.log) + events && ReadsOnly(events)
    ensures server != null && before.Some? ==> events == Reads(specs, before.value)
    ensures before.None? ==> exists event :: event in events && Forbids(event, mustBeNew)
  {
    hide Ascending, Canonical, Snapshots, Reads;
    events := [];
    assert Reads([], map[]) == [] && Snapshots([], map[]) by { NothingRead(); }
    assert specs[..0] == [];
    var found: map<string, Option<Spec>> := map[];
    var conflicts: seq<string> := [];
    for k := 0 to |specs|
      invariant Snapshots(specs[..k], found)
      invariant (mustBeNew && conflicts == []) || server == null ==> forall id :: id in found ==> found[id].None?
      invariant server != null ==> server.log == old(server.log) + events && events == Reads(specs[..k], found)
      invariant server == null ==> conflicts == []
      invariant conflicts != [] ==> exists event :: event in events && Forbids(event, mustBeNew)
    {
      var id := specs[k].id;
      assert specs[..k + 1] == specs[..k] + [specs[k]];
      EarlierIds(specs, k);
      FreshId(specs[..k], id);
      SnapshotKeys(specs[..k], found);
      if server == null {
        SnapshotsPush(specs[..k], found, specs[k], None);
        found := found[id := None];
      } else {
        var result := server.ReadSpec(id);
        ghost var latest := ReadView(id, result);
        match result {
          case Found(current) =>
            SnapshotsPush(specs[..k], found, specs[k], Some(current));
            ReadsPush(specs[..k], found, specs[k], Some(current));
            if mustBeNew {
              conflicts := conflicts + [id];
            }
            found := found[id := Some(current)];
          case Missing =>
            SnapshotsPush(specs[..k], found, specs[k], None);
            ReadsPush(specs[..k], found, specs[k], None);
            found := found[id := None];
          case Unreadable =>
            events := events + [latest];
            assert latest in events;
            return None, events;
        }
        events := events + [latest];
        assert latest in events;
      }
    }
    assert specs[..|specs|] == specs;
    if conflicts != [] {
      return None, events;
    }
    return Some(found), events;
  }

  lemma NothingRead()
    ensures Reads([], map[]) == [] && Snapshots([], map[])
  {}

  lemma FreshId(specs: seq<Spec>, id: string)
    requires forall earlier :: earlier in Ids(specs) ==> Below(earlier, id)
    ensures id !in IdSet(specs)
  {
    BelowIrreflexive(id);
    forall i | 0 <= i < |specs| ensures specs[i].id != id {
      assert Ids(specs)[i] in Ids(specs);
    }
  }

  lemma IdSetPush(specs: seq<Spec>, spec: Spec)
    ensures IdSet(specs + [spec]) == IdSet(specs) + {spec.id}
  {
    forall id | id in IdSet(specs) ensures id in IdSet(specs + [spec]) {
      var i :| 0 <= i < |specs| && specs[i].id == id;
      assert (specs + [spec])[i].id == id;
    }
    assert (specs + [spec])[|specs|].id == spec.id;
  }

  /** `pending` and `skipped` split `specs` by what was read before, in order. */
  predicate SplitBy(specs: seq<Spec>, before: map<string, Option<Spec>>, pending: seq<Spec>, skipped: seq<Row>) {
    && |pending| + |skipped| == |specs|
    && Ascending(Ids(pending)) && Ascending(RowIds(skipped))
    && (forall i :: 0 <= i < |pending| ==> pending[i] in specs && Lookup(before, pending[i].id) == Some(None))
    && (forall i :: 0 <= i < |skipped| ==>
          IsSkippedRow(skipped[i]) && RowId(skipped[i]) in Ids(specs) && Exists(before, RowId(skipped[i])))
    && (forall i :: 0 <= i < |specs| ==>
          if Exists(before, specs[i].id) then SkippedRow(specs[i].id) in skipped else specs[i] in pending)
  }

  predicate Exists(before: map<string, Option<Spec>>, id: string) { id in before && before[id].Some? }

  lemma SplitSkip(
    specs: seq<Spec>, before: map<string, Option<Spec>>, pending: seq<Spec>, skipped: seq<Row>, spec: Spec)
    requires SplitBy(specs, before, pending, skipped)
    requires forall id :: id in Ids(specs) ==> Below(id, spec.id)
    requires !Blank(spec.id) && Exists(before, spec.id)
    ensures SplitBy(specs + [spec], before, pending, skipped + [SkippedRow(spec.id)])
  {
    hide Blank, Below;
    assert skipped != [] ==> RowIds(skipped)[|skipped| - 1] in Ids(specs);
    AscendingPush(RowIds(skipped), spec.id);
    assert RowIds(skipped + [SkippedRow(spec.id)]) == RowIds(skipped) + [spec.id];
    assert Ids(specs + [spec]) == Ids(specs) + [spec.id];
  }

  lemma SplitKeep(
    specs: seq<Spec>, before: map<string, Option<Spec>>, pending: seq<Spec>, skipped: seq<Row>, spec: Spec)
    requires SplitBy(specs, before, pending, skipped)
    requires forall id :: id in Ids(specs) ==> Below(id, spec.id)
    requires Lookup(before, spec.id) == Some(None)
    ensures SplitBy(specs + [spec], before, pending + [spec], skipped)
  {
    hide IsSkippedRow, Below, RowIds;
    assert pending != [] ==> pending[|pending| - 1].id in Ids(specs) by {
      if pending != [] {
        var i :| 0 <= i < |specs| && specs[i] == pending[|pending| - 1];
        assert Ids(specs)[i] == pending[|pending| - 1].id;
      }
    }
    AscendingPush(Ids(pending), spec.id);
    assert Ids(pending + [spec]) == Ids(pending) + [spec.id];
    assert Ids(specs + [spec]) == Ids(specs) + [spec.id];
  }

  lemma SplitAccepted(specs: seq<Spec>, before: map<string, Option<Spec>>, pending: seq<Spec>, skipped: seq<Row>)
    requires SplitBy(specs, before, pending, skipped)
    ensures SkippedAccepted(skipped, IdSet(pending))
  {}

  /** Leave out the views that exist already, one row each. */
  method SkipExisting(specs: seq<Spec>, before: map<string, Option<Spec>>)
    returns (pending: seq<Spec>, skipped: seq<Row>)
    requires before.Keys == IdSet(specs) && Ascending(Ids(specs))
    requires forall i :: 0 <= i < |specs| ==> !Blank(specs[i].id)
    ensures SplitBy(specs, before, pending, skipped)
  {
    hide SplitBy, Blank, Ascending;
    pending, skipped := [], [];
    assert SplitBy([], before, [], []) by { SplitNothing(before); }
    assert specs[..0] == [];
    for k := 0 to |specs|
      invariant SplitBy(specs[..k], before, pending, skipped)
    {
      var spec := specs[k];
      assert spec.id in IdSet(specs);
      assert specs[..k + 1] == specs[..k] + [spec];
      EarlierIds(specs, k);
      if before[spec.id].Some? {
        SplitSkip(specs[..k], before, pending, skipped, spec);
        skipped := skipped + [SkippedRow(spec.id)];
      } else {
        SplitKeep(specs[..k], before, pending, skipped, spec);
        pending := pending + [spec];
      }
    }
    assert specs[..|specs|] == specs;
  }

  lemma SplitNothing(before: map<string, Option<Spec>>)
    ensures SplitBy([], before, [], [])
  {}

  lemma EarlierIds(specs: seq<Spec>, k: nat)
    requires Ascending(Ids(specs)) && k < |specs|
    ensures forall id :: id in Ids(specs[..k]) ==> Below(id, specs[k].id)
  {
    forall id | id in Ids(specs[..k]) ensures Below(id, specs[k].id) {
      var i :| 0 <= i < k && Ids(specs[..k])[i] == id;
      assert Below(Ids(specs)[i], Ids(specs)[k]);
    }
  }

  predicate PatchesFor(specs: seq<Spec>, before: map<string, Option<Spec>>, patches: map<string, Patch>) {
    && patches.Keys == Replaced(specs, before)
    && forall i :: 0 <= i < |specs| && Exists(before, specs[i].id) ==>
                     var current := before[specs[i].id].value;
                     Supported(current, specs[i]) && specs[i].id in patches &&
                     patches[specs[i].id] == PatchOf(current, specs[i])
  }

  lemma SelfPatchIsEmpty(spec: Spec)
    requires Valid(spec)
    ensures Supported(spec, spec) && PatchOf(spec, spec) == NO_PATCH
  {
    PatchEmptyIff(spec, spec);
  }

  method BuildPatches(specs: seq<Spec>, before: map<string, Option<Spec>>) returns (patches: Option<map<string, Patch>>)
    requires before.Keys == IdSet(specs) && Ascending(Ids(specs))
    requires forall i :: 0 <= i < |specs| ==> Valid(specs[i])
    ensures patches.Some? ==> PatchesFor(specs, before, patches.value)
    ensures patches.None? ==>
              exists i :: 0 <= i < |specs| && Exists(before, specs[i].id) &&
                          !Supported(before[specs[i].id].value, specs[i])
  {
    hide PatchOf, Supported, Valid, Replaced, Equivalent, ApplyPatch, Reachable, Below;
    var built: map<string, Patch> := map[];
    assert Replaced([], before) == {} by { ReplacedNone(before); }
    assert specs[..0] == [];
    for k := 0 to |specs|
      invariant PatchesFor(specs[..k], before, built)
    {
      var spec := specs[k];
      assert spec.id in IdSet(specs);
      assert specs[..k + 1] == specs[..k] + [spec];
      EarlierIds(specs, k);
      assert spec.id !in Ids(specs[..k]) by { BelowIrreflexive(spec.id); }
      assert forall i :: 0 <= i < k ==> Ids(specs[..k])[i] != spec.id;
      ReplacedStep(specs, before, k);
      if before[spec.id].Some? {
        var current := before[spec.id].value;
        if current == spec {
          SelfPatchIsEmpty(spec);
          built := built[spec.id := NO_PATCH];
        } else {
          var patch := BuildPatch(current, spec);
          if patch.None? {
            return None;
          }
          built := built[spec.id := patch.value];
        }
      }
    }
    assert specs[..|specs|] == specs;
    return Some(built);
  }

  lemma ReplacedNone(before: map<string, Option<Spec>>)
    ensures Replaced([], before) == {}
  {}

  /** The plan says of every view what its snapshot calls for: left out with a row if it exists and
      existing views are skipped, pending with that very snapshot otherwise. */
  predicate Follows(plan: ImportPlan, specs: seq<Spec>, before: map<string, Option<Spec>>, skipExisting: bool) {
    && (forall i :: 0 <= i < |specs| ==>
          if skipExisting && Exists(before, specs[i].id) then SkippedRow(specs[i].id) in plan.skipped
          else specs[i] in plan.specs && Lookup(plan.before, specs[i].id) == Lookup(before, specs[i].id))
    && plan.total == |specs|
  }

  /** The update routes cannot turn some existing view into the pending one. */
  predicate SomeUnsupported(specs: seq<Spec>, before: map<string, Option<Spec>>) {
    exists i :: 0 <= i < |specs| && Exists(before, specs[i].id) && !Supported(before[specs[i].id].value, specs[i])
  }

  /** Validate the artifact, read every id once and prepare the guarded import. Whatever the server
      answers, a plan that comes back passes the validator, accounts for the whole artifact and
      follows the answers; nothing is written. */
  method PlanImport(server: Server?, source: string, artifact: Option<seq<Spec>>, overwrite: bool, skipExisting: bool)
    returns (plan: Option<ImportPlan>, ghost specs: seq<Spec>, ghost before: map<string, Option<Spec>>,
    ghost events: seq<Event>)
    modifies server
    ensures server != null ==> server.log == old(server.log) + events && ReadsOnly(events)
    ensures plan.Some? ==>
              && Accepted(plan.value) && plan.value.overwrite == overwrite && artifact.Some?
              && multiset(specs) == multiset(seq(|artifact.value|,
                i requires 0 <= i < |artifact.value| => Decoded(artifact.value[i])))
              && Follows(plan.value, specs, before, skipExisting)
              && (if server == null then forall id :: id in before ==>
                  before[id].None? else events == Reads(specs, before))
              && (plan.value.skipped != [] ==> skipExisting)
              && plan.value.preview.action == ImportPrefix(|plan.value.specs|) + source
    // an unusable one is always refused
    ensures plan.Some? ==>
              && source != "" && artifact.value != [] && DistinctIds(artifact.value)
              && (forall i :: 0 <= i < |artifact.value| ==> Valid(artifact.value[i]))
              && !(overwrite && skipExisting) && (overwrite || skipExisting ==> server != null)
    // a usable artifact is refused only for what the server answered
    ensures plan.None? && source != "" && artifact.Some? && artifact.value != [] && !(overwrite && skipExisting) &&
            ((overwrite || skipExisting) ==> server != null) && DistinctIds(artifact.value) &&
            (forall i :: 0 <= i < |artifact.value| ==> Valid(artifact.value[i])) ==>
              || (exists event :: event in events && Forbids(event, !overwrite && !skipExisting))
              || (overwrite && SomeUnsupported(specs, before) && events == Reads(specs, before))
  {
    hide Valid, Canonical, Ascending, Blank, Accepted, Decoded;
    hide SkippedRow, DistinctIds, Snapshots, Follows, SomeUnsupported, Reads;
    specs, before, events := [], map[], [];
    if source == "" || artifact.None? {
      return None, specs, before, events;
    }
    var validated := ValidateArtifact(artifact.value);
    if validated.None? {
      return None, specs, before, events;
    }
    specs := validated.value;
    if validated.value == [] || (overwrite && skipExisting) || ((overwrite || skipExisting) && server == null) {
      ArtifactKept(artifact.value, specs);
      return None, specs, before, events;
    }
    ArtifactKept(artifact.value, specs);
    var snapshots;
    snapshots, events := ReadSnapshots(server, validated.value, !overwrite && !skipExisting);
    if snapshots.None? {
      return None, specs, before, events;
    }
    before := snapshots.value;
    plan := AssemblePlan(validated.value, snapshots.value, source, overwrite, skipExisting);
  }

  /** The part of planning that needs no server any more. */
  method AssemblePlan(
    specs: seq<Spec>, before: map<string, Option<Spec>>, source: string, overwrite: bool, skipExisting: bool)
    returns (plan: Option<ImportPlan>)
    requires source != "" && specs != [] && !(overwrite && skipExisting)
    requires forall i :: 0 <= i < |specs| ==> Canonical(specs[i]) && Valid(specs[i]) && !Blank(specs[i].id)
    requires Ascending(Ids(specs)) && Snapshots(specs, before)
    requires !overwrite && !skipExisting ==> forall id :: id in before ==> before[id].None?
    ensures plan.Some? ==>
              && Accepted(plan.value) && plan.value.overwrite == overwrite
              && Follows(plan.value, specs, before, skipExisting)
              && (plan.value.skipped != [] ==> skipExisting)
              && plan.value.preview.action == ImportPrefix(|plan.value.specs|) + source
    ensures plan.None? ==> overwrite && SomeUnsupported(specs, before)
  {
    hide Valid, Canonical, PatchOf, Supported, PreviewDetails, SkippedAccepted, Replaced, Ascending, Blank, Accepted;
    hide SplitBy, Snapshots, Restricted, PatchesFor, Follows, SomeUnsupported;
    var snapshots, pending, skipped := before, specs, [];
    NothingSkipped(IdSet(specs));
    SnapshotKeys(specs, before);
    if skipExisting {
      pending, skipped := SkipExisting(specs, before);
      SplitIds(specs, before, pending, skipped);
      snapshots := Restricted(before, IdSet(pending));
      RestrictedSnapshots(specs, before, pending);
    }
    SnapshotKeys(pending, snapshots);
    var patches := BuildPatches(pending, snapshots);
    if patches.None? {
      UnsupportedIsExisting(pending, snapshots);
      return None;
    }
    plan := Some(Assembled(pending, snapshots, patches.value, skipped, source, overwrite));
    AssembledIsAccepted(pending, snapshots, patches.value, skipped, source, overwrite);
    if skipExisting {
      SplitFollows(plan.value, specs, before);
    } else {
      AllFollow(plan.value, specs, before);
    }
  }

  lemma UnsupportedIsExisting(specs: seq<Spec>, before: map<string, Option<Spec>>)
    requires exists i ::
               0 <= i < |specs| && Exists(before, specs[i].id) && !Supported(before[specs[i].id].value, specs[i])
    ensures SomeUnsupported(specs, before) && exists id :: id in before && before[id].Some?
  {
    hide Supported;
  }

  lemma SplitFollows(plan: ImportPlan, specs: seq<Spec>, before: map<string, Option<Spec>>)
    requires SplitBy(specs, before, plan.specs, plan.skipped) && before.Keys == IdSet(specs)
    requires plan.before == Restricted(before, IdSet(plan.specs)) && plan.total == |plan.specs| + |plan.skipped|
    ensures Follows(plan, specs, before, true)
  {
    hide IsSkippedRow, Ascending, RowIds;
    forall i | 0 <= i < |specs| && !Exists(before, specs[i].id)
      ensures specs[i] in plan.specs && Lookup(plan.before, specs[i].id) == Lookup(before, specs[i].id)
    {
      var j :| 0 <= j < |plan.specs| && plan.specs[j] == specs[i];
      assert plan.specs[j].id in IdSet(plan.specs);
    }
  }

  lemma AllFollow(plan: ImportPlan, specs: seq<Spec>, before: map<string, Option<Spec>>)
    requires plan.specs == specs && plan.before == before && plan.total == |specs|
    ensures Follows(plan, specs, before, false)
  {}

  lemma RestrictedSnapshots(specs: seq<Spec>, before: map<string, Option<Spec>>, pending: seq<Spec>)
    requires Snapshots(specs, before)
    requires forall i :: 0 <= i < |pending| ==> Lookup(before, pending[i].id) == Some(None)
    ensures Snapshots(pending, Restricted(before, IdSet(pending)))
    ensures forall id :: id in Restricted(before, IdSet(pending)) ==> Restricted(before, IdSet(pending))[id].None?
  {
    var kept := Restricted(before, IdSet(pending));
    forall id | id in IdSet(pending) ensures id in kept && kept[id].None? {
      var i :| 0 <= i < |pending| && pending[i].id == id;
    }
  }

  lemma SnapshotKeys(specs: seq<Spec>, before: map<string, Option<Spec>>)
    requires Snapshots(specs, before)
    ensures before.Keys == IdSet(specs)
  {}

  lemma NothingSkipped(pending: set<string>)
    ensures SkippedAccepted([], pending)
  {}

  function Assembled(
    specs: seq<Spec>, before: map<string, Option<Spec>>, patches: map<string, Patch>, skipped: seq<Row>,
    source: string, overwrite: bool): ImportPlan
  {
    var preview := Preview(ImportPrefix(|specs|) + source, PreviewDetails(specs, before), Ids(specs));
    ImportPlan(preview, specs, before, patches, skipped, |specs| + |skipped|, overwrite)
  }

  lemma AssembledIsAccepted(
    specs: seq<Spec>, before: map<string, Option<Spec>>, patches: map<string, Patch>, skipped: seq<Row>,
    source: string, overwrite: bool)
    requires source != "" && |specs| + |skipped| > 0 && (skipped != [] ==> !overwrite)
    requires forall i :: 0 <= i < |specs| ==> Canonical(specs[i])
    requires Ascending(Ids(specs)) && SkippedAccepted(skipped, IdSet(specs))
    requires Snapshots(specs, before) && PatchesFor(specs, before, patches)
    requires !overwrite ==> forall id :: id in before ==> before[id].None?
    ensures Accepted(Assembled(specs, before, patches, skipped, source, overwrite))
    ensures Assembled(specs, before, patches, skipped, source, overwrite).preview ==
            Preview("Import " + Digits(|specs|) + " data view(s) from " + source, PreviewDetails(specs, before),
              Ids(specs))
  {
    hide PreviewDetails, Digits, SkippedAccepted, Ascending, PatchOf, Supported, Valid;
    var plan := Assembled(specs, before, patches, skipped, source, overwrite);
    forall i | 0 <= i < |specs| ensures EntryAccepted(plan, specs[i]) {
      assert specs[i].id in IdSet(specs);
    }
  }

  lemma ArtifactKept(artifact: seq<Spec>, specs: seq<Spec>)
    requires multiset(specs) == multiset(seq(|artifact|, i requires 0 <= i < |artifact| => Decoded(artifact[i])))
    ensures |specs| == |artifact|
    ensures forall i :: 0 <= i < |artifact| ==>
              Decoded(artifact[i]) in specs && Decoded(artifact[i]).id == artifact[i].id
    ensures (forall i :: 0 <= i < |artifact| ==> Valid(artifact[i])) ==>
              forall i :: 0 <= i < |specs| ==> Canonical(specs[i]) && Valid(specs[i]) && !Blank(specs[i].id)
  {
    var decoded := seq(|artifact|, i requires 0 <= i < |artifact| => Decoded(artifact[i]));
    assert |multiset(specs)| == |multiset(decoded)|;
    forall i | 0 <= i < |artifact| ensures Decoded(artifact[i]) in specs {
      assert decoded[i] in multiset(decoded);
    }
    if forall i :: 0 <= i < |artifact| ==> Valid(artifact[i]) {
      forall i | 0 <= i < |specs| ensures Canonical(specs[i]) && Valid(specs[i]) && !Blank(specs[i].id) {
        assert specs[i] in multiset(specs);
        var j :| 0 <= j < |decoded| && decoded[j] == specs[i];
      }
    }
  }

  lemma SplitIds(specs: seq<Spec>, before: map<string, Option<Spec>>, pending: seq<Spec>, skipped: seq<Row>)
    requires SplitBy(specs, before, pending, skipped) && before.Keys == IdSet(specs)
    ensures IdSet(pending) <= before.Keys
    ensures forall i :: 0 <= i < |pending| ==> pending[i] in specs && Lookup(before, pending[i].id) == Some(None)
    ensures forall spec :: spec in specs ==> spec in pending || SkippedRow(spec.id) in skipped
    ensures SkippedAccepted(skipped, IdSet(pending)) && Ascending(Ids(pending))
    ensures |pending| + |skipped| == |specs|
  {
    SplitAccepted(specs, before, pending, skipped);
  }
}
