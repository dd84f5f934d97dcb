/** Planning a dashboard import, `dashboards_ops.rs`, against a server that anyone may change between
    any two requests: its answers are arbitrary. */
module DashboardImport {
  import opened Wrappers
  import opened Decimal
  import opened StringOrder
  import opened JsonTree
  import opened KeyOrder
  import DataViews
  import DataViewPlans
  import LossAudit

  /** A portable dashboard; `data` is its open JSON object. */
  datatype Spec = Spec(id: string, data: seq<(string, Json)>)

  /** `PartialEq`: the order of keys does not matter. */
  predicate SameSpec(a: Spec, b: Spec) { a.id == b.id && Same(Obj(a.data), Obj(b.data)) }

  function Title(data: seq<(string, Json)>): string {
    var title := Get(data, "title");
    if title.Some? && title.value.Str? then title.value.text else ""
  }

  /** Somewhere an object has a time_range with a mode, which the server accepts and drops. */
  predicate HasTimeRangeMode(j: Json) {
    match j
    case Obj(entries) =>
      exists i :: 0 <= i < |entries| &&
        ((entries[i].0 == "time_range" && entries[i].1.Obj? && Get(entries[i].1.entries, "mode").Some?)
         || HasTimeRangeMode(entries[i].1))
    case Arr(items) => exists i :: 0 <= i < |items| && HasTimeRangeMode(items[i])
    case _ => false
  }

  predicate Titled(id: string, data: seq<(string, Json)>) { !DataViews.Blank(id) && !DataViews.Blank(Title(data)) }

  predicate ValidSpec(spec: Spec) { Titled(spec.id, spec.data) && !HasTimeRangeMode(Obj(spec.data)) }

  /** The ids of all data views that a dashboard refers to, at any depth. */
  function References(j: Json): set<string> {
    match j
    case Obj(entries) =>
      (if Get(entries, "type") == Some(Str("data_view_reference")) && Get(entries, "ref_id").Some? &&
          Get(entries, "ref_id").value.Str?
       then {Get(entries, "ref_id").value.text} else {}) +
      set i, id | 0 <= i < |entries| && id in References(entries[i].1) :: id
    case Arr(items) => set i, id | 0 <= i < |items| && id in References(items[i]) :: id
    case _ => {}
  }

  function AllReferences(specs: seq<Spec>): set<string> {
    set i, id | 0 <= i < |specs| && id in References(Obj(specs[i].data)) :: id
  }

  /** An object that refers to the data view `id`. */
  predicate RefersTo(j: Json, id: string) {
    && j.Obj? && Get(j.entries, "type") == Some(Str("data_view_reference"))
    && Get(j.entries, "ref_id") == Some(Str(id))
  }

  predicate RefersAt(j: Json, position: seq<LossAudit.Step>, id: string) {
    LossAudit.At(j, position).Some? && RefersTo(LossAudit.At(j, position).value, id)
  }

  /** At the end of `position` stands a time_range object with a mode. */
  predicate ModeAt(j: Json, position: seq<LossAudit.Step>) {
    && position != [] && position[|position| - 1] == LossAudit.Key("time_range")
    && LossAudit.At(j, position).Some? && LossAudit.At(j, position).value.Obj?
    && Get(LossAudit.At(j, position).value.entries, "mode").Some?
  }

  /** A value stands one level below `j`. */
  ghost predicate StandsIn(j: Json, step: LossAudit.Step, child: Json) {
    match (j, step)
    case (Obj(entries), Key(key)) => exists i :: 0 <= i < |entries| && entries[i] == (key, child)
    case (Arr(items), Index(i)) => i < |items| && items[i] == child
    case _ => false
  }

  lemma AtStep(j: Json, step: LossAudit.Step, rest: seq<LossAudit.Step>, child: Json)
    requires WellFormed(j) && StandsIn(j, step, child)
    ensures LossAudit.At(j, [step] + rest) == LossAudit.At(child, rest)
  {
    assert ([step] + rest)[1..] == rest;
    if j.Obj? {
      var i :| 0 <= i < |j.entries| && j.entries[i] == (step.key, child);
      GetAt(j.entries, i);
    }
  }

  lemma AtStands(j: Json, position: seq<LossAudit.Step>) returns (child: Json)
    requires position != [] && LossAudit.At(j, position).Some?
    ensures StandsIn(j, position[0], child) && LossAudit.At(child, position[1..]) == LossAudit.At(j, position)
  {
    match j
    case Obj(entries) =>
      GetFinds(entries, position[0].key);
      child := Get(entries, position[0].key).value;
    case Arr(items) => child := items[position[0].index];
  }

  /** The collected ids are those of all reference objects, however deep in objects and arrays. */
  lemma {:induction false} ReferencesAre(j: Json, id: string)
    requires WellFormed(j)
    ensures id in References(j) <==> exists position :: RefersAt(j, position, id)
  {
    if RefersTo(j, id) {
      assert RefersAt(j, [], id);
    } else if id in References(j) {
      var step, child := ReferenceStep(j, id);
      ReferencesAre(child, id);
      var rest :| RefersAt(child, rest, id);
      AtStep(j, step, rest, child);
      assert RefersAt(j, [step] + rest, id);
    } else if position :| RefersAt(j, position, id) {
      var child := AtStands(j, position);
      assert RefersAt(child, position[1..], id);
      ReferencesAre(child, id);
      assert false;
    }
  }

  /** The data views that an import needs are those that some dashboard refers to somewhere. */
  lemma AllReferencesAre(specs: seq<Spec>, id: string)
    requires forall i :: 0 <= i < |specs| ==> WellFormed(Obj(specs[i].data))
    ensures id in AllReferences(specs) <==>
            exists i, position :: 0 <= i < |specs| && RefersAt(Obj(specs[i].data), position, id)
  {
    hide References, RefersAt, WellFormed;
    forall i | 0 <= i < |specs|
      ensures id in References(Obj(specs[i].data)) <==> exists position :: RefersAt(Obj(specs[i].data), position, id)
    {
      ReferencesAre(Obj(specs[i].data), id);
    }
  }

  lemma ReferenceStep(j: Json, id: string) returns (step: LossAudit.Step, child: Json)
    requires WellFormed(j) && id in References(j) && !RefersTo(j, id)
    ensures StandsIn(j, step, child) && id in References(child) && WellFormed(child) && child < j
  {
    match j
    case Obj(entries) =>
      var i :| 0 <= i < |entries| && id in References(entries[i].1);
      step, child := LossAudit.Key(entries[i].0), entries[i].1;
    case Arr(items) =>
      var i :| 0 <= i < |items| && id in References(items[i]);
      step, child := LossAudit.Index(i), items[i];
  }

  /** A dashboard is refused for a mode in a time range at any depth, and for no other. */
  lemma {:induction false} TimeRangeModeIff(j: Json)
    requires WellFormed(j)
    ensures HasTimeRangeMode(j) <==> exists position :: ModeAt(j, position)
  {
    if HasTimeRangeMode(j) {
      var step, child := ModeStep(j);
      if step == LossAudit.Key("time_range") && child.Obj? && Get(child.entries, "mode").Some? {
        AtStep(j, step, [], child);
        assert ModeAt(j, [step] + []);
      } else {
        TimeRangeModeIff(child);
        var rest :| ModeAt(child, rest);
        AtStep(j, step, rest, child);
        assert ModeAt(j, [step] + rest);
      }
    } else if position :| ModeAt(j, position) {
      var child := AtStands(j, position);
      if |position| > 1 {
        assert ModeAt(child, position[1..]);
        TimeRangeModeIff(child);
      }
      assert false;
    }
  }

  lemma ModeStep(j: Json) returns (step: LossAudit.Step, child: Json)
    requires WellFormed(j) && HasTimeRangeMode(j)
    ensures StandsIn(j, step, child) && WellFormed(child) && child < j
    ensures || HasTimeRangeMode(child)
            || (step == LossAudit.Key("time_range") && child.Obj? && Get(child.entries, "mode").Some?)
  {
    match j
    case Obj(entries) =>
      var i :| 0 <= i < |entries| &&
               ((entries[i].0 == "time_range" && entries[i].1.Obj? && Get(entries[i].1.entries, "mode").Some?)
                || HasTimeRangeMode(entries[i].1));
      step, child := LossAudit.Key(entries[i].0), entries[i].1;
    case Arr(items) =>
      var i :| 0 <= i < |items| && HasTimeRangeMode(items[i]);
      step, child := LossAudit.Index(i), items[i];
  }

  /** A dashboard has a title when its data has one that is not blank. */
  lemma TitledIff(id: string, data: seq<(string, Json)>)
    ensures Titled(id, data) <==>
            !DataViews.Blank(id) && exists text :: Get(data, "title") == Some(Str(text)) && !DataViews.Blank(text)
  {}

  // ---- the server ----

  /** A dashboard that could be decoded, its absence, or a failed or malformed answer. */
  datatype Answer = Board(id: string, data: seq<(string, Json)>, warnings: seq<string>) | NotFound | Broken

  /** The id inside a data view that was answered, if there is one. */
  datatype ViewAnswer = View(id: Option<string>) | NoView | BrokenView

  datatype Event =
    | GetBoard(id: string, answer: Answer)
    | PutBoard(spec: Spec, answer: Answer)
    | GetView(id: string, view: ViewAnswer)

  datatype ReadResult = Found(spec: Spec) | Missing | Unreadable

  /** What a read of `id` amounts to. */
  function ReadOf(answer: Answer, id: string): ReadResult {
    match answer
    case NotFound => Missing
    case Board(other, data, _) => if other == id &&
    ValidSpec(Spec(other, data)) then Found(Spec(other, data)) else Unreadable
    case Broken => Unreadable
  }

  /** Only the requested dashboard counts, and only with title and without a mode in a time range. */
  lemma ReadOfIs(answer: Answer, id: string)
    requires answer.Board? ==> WellFormed(Obj(answer.data))
    ensures ReadOf(answer, id).Missing? <==> answer.NotFound?
    ensures ReadOf(answer, id).Found? <==>
            && answer.Board? && answer.id == id && !DataViews.Blank(id)
            && (exists text :: Get(answer.data, "title") == Some(Str(text)) && !DataViews.Blank(text))
            && !exists position :: ModeAt(Obj(answer.data), position)
    ensures ReadOf(answer, id).Found? ==> ReadOf(answer, id).spec == Spec(id, answer.data)
  {
    hide HasTimeRangeMode, ModeAt, DataViews.Blank, Titled;
    if answer.Board? {
      TitledIff(answer.id, answer.data);
      TimeRangeModeIff(Obj(answer.data));
    }
  }

  class Server {
    var answers: seq<Answer>
    var views: seq<ViewAnswer>
    var log: seq<Event>

    /** An answer without id or title does not decode. */
    method Request() returns (answer: Answer)
      modifies this`answers
      ensures var given := if old(answers) == [] then Broken else old(answers)[0];
              answer == if given.Board? && !Titled(given.id, given.data) then Broken else given
    {
      answer := Broken;
      if answers != [] {
        answer := answers[0];
        answers := answers[1..];
        if answer.Board? && !Titled(answer.id, answer.data) {
          answer := Broken;
        }
      }
    }

    method Get(id: string) returns (answer: Answer)
      modifies this
      ensures log == old(log) + [GetBoard(id, answer)]
    {
      answer := Request();
      log := log + [GetBoard(id, answer)];
    }

    /** An invalid dashboard is refused before anything is sent. */
    method Put(spec: Spec) returns (answer: Answer)
      modifies this
      ensures ValidSpec(spec) ==> log == old(log) + [PutBoard(spec, answer)]
      ensures !ValidSpec(spec) ==> answer == Broken && log == old(log)
    {
      if !ValidSpec(spec) {
        return Broken;
      }
      answer := Request();
      log := log + [PutBoard(spec, answer)];
    }

    method ReadView(id: string) returns (view: ViewAnswer)
      modifies this
      ensures log == old(log) + [GetView(id, view)]
    {
      view := BrokenView;
      if views != [] {
        view := views[0];
        views := views[1..];
      }
      log := log + [GetView(id, view)];
    }
  }

  // ---- plans ----

  datatype Plan = Plan(
    preview: DataViewPlans.Preview, specs: seq<Spec>, before: map<string, Option<Spec>>,
    skipped: seq<DataViewPlans.Row>, total: nat, overwrite: bool)

  function Ids(specs: seq<Spec>): (ids: seq<string>)
    ensures |ids| == |specs| && forall i :: 0 <= i < |ids| ==> ids[i] == specs[i].id
  {
    seq(|specs|, i requires 0 <= i < |specs| => specs[i].id)
  }

  function IdSet(specs: seq<Spec>): set<string> { set i | 0 <= i < |specs| :: specs[i].id }

  function ImportAction(count: nat): string { "Import " + Digits(count) + " dashboard(s)" }

  function PreviewLine(spec: Spec, before: Option<Spec>): string {
    match before
    case None => spec.id + "  create  " + Title(spec.data)
    case Some(current) =>
      if SameSpec(current, spec) then spec.id + "  no-op  " + Title(spec.data)
      else spec.id + "  replace  " + Title(current.data) + " -> " + Title(spec.data)
  }

  function PreviewDetails(specs: seq<Spec>, before: map<string, Option<Spec>>): seq<string> {
    if specs == [] then []
    else
      (if specs[0].id in before then [PreviewLine(specs[0], before[specs[0].id])] else []) +
      PreviewDetails(specs[1..], before)
  }

  /** A new dashboard, or one that is replaced under --overwrite. */
  predicate EntryAccepted(plan: Plan, spec: Spec) {
    spec.id in plan.before &&
    match plan.before[spec.id]
    case None => true
    case Some(snapshot) => ValidSpec(snapshot) && snapshot.id == spec.id && plan.overwrite
  }

  predicate AllValid(specs: seq<Spec>) { forall i :: 0 <= i < |specs| ==> ValidSpec(specs[i]) }

  /** What a plan must satisfy before anything is sent. */
  predicate Accepted(plan: Plan) {
    && plan.total > 0 && plan.total == |plan.specs| + |plan.skipped|
    && (plan.skipped != [] ==> !plan.overwrite)
    && AllValid(plan.specs) && Ascending(Ids(plan.specs))
    && plan.preview == DataViewPlans.Preview(
         ImportAction(|plan.specs|), PreviewDetails(plan.specs, plan.before), Ids(plan.specs))
    && plan.before.Keys == IdSet(plan.specs)
    && (forall i :: 0 <= i < |plan.specs| ==> EntryAccepted(plan, plan.specs[i]))
    && DataViewPlans.SkippedAccepted(plan.skipped, IdSet(plan.specs))
  }

  method ValidatePending(specs: seq<Spec>) returns (pending: Option<seq<string>>)
    ensures pending.Some? <==> AllValid(specs) && Ascending(Ids(specs))
    ensures pending.Some? ==> pending.value == Ids(specs)
  {
    hide ValidSpec, Below;
    var ids: seq<string> := [];
    for k := 0 to |specs|
      invariant ids == Ids(specs[..k]) && Ascending(ids) && AllValid(specs[..k])
    {
      if !ValidSpec(specs[k]) {
        return None;
      }
      if ids != [] && !Below(ids[|ids| - 1], specs[k].id) {
        assert Ids(specs)[k - 1] == ids[k - 1] && Ids(specs)[k] == specs[k].id;
        return None;
      }
      AscendingPush(ids, specs[k].id);
      ids := ids + [specs[k].id];
      assert ids == Ids(specs[..k + 1]);
    }
    assert specs[..|specs|] == specs;
    return Some(ids);
  }

  method ValidateImportPlan(plan: Plan) returns (ok: bool)
    ensures ok <==> Accepted(plan)
  {
    hide ValidSpec, Ascending, PreviewDetails, ImportAction, DataViewPlans.SkippedAccepted, AllValid;
    if plan.total == 0 || plan.total != |plan.specs| + |plan.skipped| || (plan.skipped != [] && plan.overwrite) {
      return false;
    }
    var pending := ValidatePending(plan.specs);
    if pending.None? || plan.preview.targets != pending.value {
      return false;
    }
    if plan.preview.action != ImportAction(|plan.specs|) ||
       plan.preview.details != PreviewDetails(plan.specs, plan.before) ||
       plan.before.Keys != IdSet(plan.specs) {
      return false;
    }
    for k := 0 to |plan.specs|
      invariant forall i :: 0 <= i < k ==> EntryAccepted(plan, plan.specs[i])
    {
      var id := plan.specs[k].id;
      assert id in IdSet(plan.specs);
      match plan.before[id] {
        case None =>
        case Some(snapshot) =>
          if !ValidSpec(snapshot) || snapshot.id != id || !plan.overwrite {
            return false;
          }
      }
    }
    ok := DataViewPlans.ValidateSkipped(plan.skipped, IdSet(plan.specs));
  }

  // ---- the planner ----

  function IdOf(spec: Spec): string { spec.id }

  /** Fully validate the decoded artifact: portable dashboards, unique ids, sorted. */
  method ValidateArtifact(artifact: seq<Spec>) returns (specs: Option<seq<Spec>>)
    ensures specs.Some? <==> AllValid(artifact) && DistinctBy(artifact, IdOf)
    ensures specs.Some? ==>
              && Ascending(Ids(specs.value)) && AllValid(specs.value)
              && multiset(specs.value) == multiset(artifact)
  {
    hide ValidSpec;
    var seen: set<string> := {};
    var duplicates := false;
    for k := 0 to |artifact|
      invariant AllValid(artifact[..k])
      invariant forall id :: id in seen <==> exists i :: 0 <= i < k && artifact[i].id == id
      invariant duplicates <==> exists i, j :: 0 <= i < j < k && artifact[i].id == artifact[j].id
    {
      if !ValidSpec(artifact[k]) {
        return None;
      }
      duplicates := duplicates || artifact[k].id in seen;
      seen := seen + {artifact[k].id};
      assert artifact[..k + 1] == artifact[..k] + [artifact[k]];
    }
    assert artifact[..|artifact|] == artifact;
    if duplicates {
      assert !DistinctBy(artifact, IdOf);
      return None;
    }
    SortedById(artifact);
    return Some(SortBy(artifact, IdOf));
  }

  lemma SortedById(artifact: seq<Spec>)
    requires AllValid(artifact) && DistinctBy(artifact, IdOf)
    ensures var sorted := SortBy(artifact, IdOf);
            Ascending(Ids(sorted)) && AllValid(sorted) && multiset(sorted) == multiset(artifact)
  {
    hide ValidSpec;
    var sorted := SortBy(artifact, IdOf);
    SortContents(artifact, IdOf);
    SortOrder(artifact, IdOf);
    forall i, j | 0 <= i < j < |sorted| ensures Below(Ids(sorted)[i], Ids(sorted)[j]) {
      assert Below(IdOf(sorted[i]), IdOf(sorted[j]));
    }
    forall i | 0 <= i < |sorted| ensures ValidSpec(sorted[i]) {
      assert sorted[i] in multiset(artifact);
      assert sorted[i] in artifact;
    }
  }

  predicate Exists(before: map<string, Option<Spec>>, id: string) { id in before && before[id].Some? }

  /** One valid dashboard, or its absence, per id. */
  predicate Snapshots(specs: seq<Spec>, before: map<string, Option<Spec>>) {
    && before.Keys == IdSet(specs)
    && forall id :: id in before && before[id].Some? ==> ValidSpec(before[id].value) && before[id].value.id == id
  }

  predicate Reading(event: Event) { !event.PutBoard? }

  /** The read of one id shows its snapshot. */
  predicate Shows(event: Event, id: string, before: map<string, Option<Spec>>) {
    && event.GetBoard? && event.id == id
    && ReadOf(event.answer, id) == if Exists(before, id) then Found(before[id].value) else Missing
  }

  /** One read per dashboard, in order, each showing the snapshot. */
  predicate Reads(specs: seq<Spec>, before: map<string, Option<Spec>>, events: seq<Event>) {
    |events| == |specs| && forall i :: 0 <= i < |specs| ==> Shows(events[i], specs[i].id, before)
  }

  lemma SnapshotsPush(
    specs: seq<Spec>, before: map<string, Option<Spec>>, events: seq<Event>, spec: Spec, event: Event,
    current: Option<Spec>)
    requires Snapshots(specs, before) && Reads(specs, before, events) && spec.id !in before
    requires event.GetBoard? && event.id == spec.id
    requires ReadOf(event.answer, spec.id) == if current.Some? then Found(current.value) else Missing
    ensures Snapshots(specs + [spec], before[spec.id := current])
    ensures Reads(specs + [spec], before[spec.id := current], events + [event])
  {
    hide ValidSpec;
    var next := before[spec.id := current];
    IdSetPush(specs, spec);
    forall i | 0 <= i < |specs| ensures Shows(events[i], specs[i].id, next) {
      assert specs[i].id in IdSet(specs);
    }
  }

  lemma IdSetPush(specs: seq<Spec>, spec: Spec)
    ensures IdSet(specs + [spec]) == IdSet(specs) + {spec.id}
  {
    forall id | id in IdSet(specs) ensures id in IdSet(specs + [spec]) {
      var i :| 0 <= i < |specs| && specs[i].id == id;
      assert (specs + [spec])[i].id == id;
    }
    assert (specs + [spec])[|specs|].id == spec.id;
  }

  lemma FreshId(specs: seq<Spec>, k: nat)
    requires Ascending(Ids(specs)) && k < |specs|
    ensures specs[k].id !in IdSet(specs[..k])
  {
    BelowIrreflexive(specs[k].id);
    assert forall i :: 0 <= i < k ==> Below(Ids(specs)[i], Ids(specs)[k]);
  }

  /** An unreadable answer, or a dashboard that is there although it must be new. */
  predicate Forbids(event: Event, mustBeNew: bool) {
    && event.GetBoard?
    && (ReadOf(event.answer, event.id).Unreadable? || (mustBeNew && ReadOf(event.answer, event.id).Found?))
  }

  /** Read every dashboard once, noting those that must not exist. None when a read fails. */
  method ReadSnapshots(server: Server, specs: seq<Spec>, mustBeNew: bool)
    returns (before: Option<map<string, Option<Spec>>>, conflict: bool, ghost events: seq<Event>)
    requires Ascending(Ids(specs))
    modifies server
    ensures server.log == old(server.log) + events && forall event :: event in events ==> Reading(event)
    ensures before.Some? ==> Snapshots(specs, before.value) && Reads(specs, before.value, events)
    ensures before.Some? && mustBeNew && !conflict ==> forall id :: id in before.value ==> before.value[id].None?
    ensures before.None? || conflict ==> exists event :: event in events && Forbids(event, mustBeNew)
  {
    hide Ascending, ValidSpec, Snapshots, Reads;
    events, conflict := [], false;
    var found: map<string, Option<Spec>> := map[];
    NothingRead();
    assert specs[..0] == [];
    for k := 0 to |specs|
      invariant server.log == old(server.log) + events && forall event :: event in events ==> Reading(event)
      invariant Snapshots(specs[..k], found) && Reads(specs[..k], found, events)
      invariant mustBeNew && !conflict ==> forall id :: id in found ==> found[id].None?
      invariant conflict ==> exists event :: event in events && Forbids(event, mustBeNew)
    {
      var id := specs[k].id;
      assert specs[..k + 1] == specs[..k] + [specs[k]];
      FreshId(specs, k);
      SnapshotKeys(specs[..k], found);
      var answer := server.Get(id);
      ghost var latest := GetBoard(id, answer);
      match ReadOf(answer, id) {
        case Found(current) =>
          SnapshotsPush(specs[..k], found, events, specs[k], latest, Some(current));
          conflict := conflict || mustBeNew;
          found := found[id := Some(current)];
        case Missing =>
          SnapshotsPush(specs[..k], found, events, specs[k], latest, None);
          found := found[id := None];
        case Unreadable =>
          events := events + [latest];
          assert latest in events;
          return None, conflict, events;
      }
      events := events + [latest];
      assert latest in events;
    }
    assert specs[..|specs|] == specs;
    before := Some(found);
  }

  lemma NothingRead()
    ensures Snapshots([], map[]) && Reads([], map[], [])
  {}

  lemma SnapshotKeys(specs: seq<Spec>, before: map<string, Option<Spec>>)
    requires Snapshots(specs, before)
    ensures before.Keys == IdSet(specs)
  {}

  /** Read every referenced data view; false unless all exist under their ids. */
  method CheckReferences(server: Server, references: set<string>) returns (ok: bool, ghost events: seq<Event>)
    modifies server
    ensures server.log == old(server.log) + events && forall event :: event in events ==> Reading(event)
    ensures ok ==> forall id :: id in references ==> GetView(id, View(Some(id))) in events
    ensures !ok ==> exists id, view :: id in references && GetView(id, view) in events && view != View(Some(id))
  {
    events := [];
    ok := true;
    var left := references;
    while left != {}
      invariant server.log == old(server.log) + events && forall event :: event in events ==> Reading(event)
      invariant left <= references
      invariant ok ==> forall id :: id in references - left ==> GetView(id, View(Some(id))) in events
      invariant !ok ==> exists id, view :: id in references && GetView(id, view) in events && view != View(Some(id))
      decreases left
    {
      var id :| id in left;
      left := left - {id};
      var view := server.ReadView(id);
      events := events + [GetView(id, view)];
      assert GetView(id, view) in events;
      match view {
        case View(actual) =>
          if actual != Some(id) {
            return false, events;
          }
        case NoView =>
          ok := false;
        case BrokenView =>
          return false, events;
      }
    }
  }

  /** The dashboards that were found, or those that were not, in order. */
  function Kept(specs: seq<Spec>, before: map<string, Option<Spec>>, found: bool): seq<Spec> {
    if specs == [] then []
    else
      var last := specs[|specs| - 1];
      Kept(specs[..|specs| - 1], before, found) + if Exists(before, last.id) == found then [last] else []
  }

  lemma {:induction false} KeptMembers(specs: seq<Spec>, before: map<string, Option<Spec>>, found: bool)
    ensures forall spec :: spec in Kept(specs, before, found) <==> spec in specs && Exists(before, spec.id) == found
    ensures |Kept(specs, before, true)| + |Kept(specs, before, false)| == |specs|
  {
    hide Exists;
    if specs == [] {
    } else {
      var head, last := specs[..|specs| - 1], specs[|specs| - 1];
      KeptMembers(head, before, found);
      KeptMembers(head, before, !found);
      forall spec ensures spec in specs <==> spec in head || spec == last {
        assert specs == head + [last];
      }
    }
  }

  lemma PrefixAscends(specs: seq<Spec>, k: nat)
    requires Ascending(Ids(specs)) && k < |specs|
    ensures Ascending(Ids(specs[..k])) && forall spec :: spec in specs[..k] ==> Below(spec.id, specs[k].id)
  {
    hide Below;
    var ids := Ids(specs);
    assert Ids(specs[..k]) == ids[..k];
    forall spec | spec in specs[..k] ensures Below(spec.id, specs[k].id) {
      var j :| 0 <= j < k && specs[j] == spec;
      assert Below(ids[j], ids[k]);
    }
  }

  lemma {:induction false} KeptAscends(specs: seq<Spec>, before: map<string, Option<Spec>>, found: bool)
    requires Ascending(Ids(specs))
    ensures Ascending(Ids(Kept(specs, before, found)))
  {
    hide Below, Exists, Ascending;
    if specs == [] {
    } else {
      var k := |specs| - 1;
      var kept := Kept(specs[..k], before, found);
      PrefixAscends(specs, k);
      KeptAscends(specs[..k], before, found);
      KeptMembers(specs[..k], before, found);
      AscendsPush(kept, specs[k]);
      assert kept + [] == kept;
    }
  }

  lemma AscendsPush(specs: seq<Spec>, spec: Spec)
    requires Ascending(Ids(specs)) && forall s :: s in specs ==> Below(s.id, spec.id)
    ensures Ascending(Ids(specs + [spec]))
  {
    hide Below, Ascending;
    if specs != [] {
      assert specs[|specs| - 1] in specs;
    }
    AscendingPush(Ids(specs), spec.id);
    assert Ids(specs + [spec]) == Ids(specs) + [spec.id];
  }

  function SkippedRows(specs: seq<Spec>): (rows: seq<DataViewPlans.Row>)
    ensures |rows| == |specs| && forall i :: 0 <= i < |rows| ==> rows[i] == DataViewPlans.SkippedRow(specs[i].id)
  {
    seq(|specs|, i requires 0 <= i < |specs| => DataViewPlans.SkippedRow(specs[i].id))
  }

  function Assembled(
    specs: seq<Spec>, before: map<string, Option<Spec>>, skipped: seq<DataViewPlans.Row>, total: nat,
      overwrite: bool): Plan {
    Plan(DataViewPlans.Preview(ImportAction(|specs|), PreviewDetails(specs, before), Ids(specs)),
         specs, before, skipped, total, overwrite)
  }

  /** The plan made from the snapshots that were read. */
  function PlanOf(specs: seq<Spec>, before: map<string, Option<Spec>>, overwrite: bool, skipExisting: bool): Plan {
    if skipExisting then
      var pending := Kept(specs, before, false);
      Assembled(pending, Restricted(before, IdSet(pending)), SkippedRows(Kept(specs, before, true)), |specs|, overwrite)
    else Assembled(specs, before, [], |specs|, overwrite)
  }

  /** What stands in the plan: under --skip-existing the dashboards that were found are listed as
      skipped and all others are imported, without it every dashboard is; each keeps its snapshot. */
  lemma PlanOfIs(specs: seq<Spec>, before: map<string, Option<Spec>>, overwrite: bool, skipExisting: bool)
    requires before.Keys == IdSet(specs)
    ensures var plan := PlanOf(specs, before, overwrite, skipExisting);
            && plan.total == |specs| == |plan.specs| + |plan.skipped| && plan.overwrite == overwrite
            && plan.preview == DataViewPlans.Preview("Import " + Digits(|plan.specs|) + " dashboard(s)",
                 PreviewDetails(plan.specs, plan.before), Ids(plan.specs))
            && (!skipExisting ==> plan.specs == specs && plan.skipped == [] && plan.before == before)
            && (forall spec :: spec in plan.specs <==>
                  spec in specs && !(skipExisting && before[spec.id].Some?))
            && (forall row :: row in plan.skipped <==>
                  exists i :: 0 <= i < |specs| && skipExisting && before[specs[i].id].Some?
                              && row == DataViewPlans.SkippedRow(specs[i].id))
            && (forall id :: id in plan.before <==> exists i :: 0 <= i < |plan.specs| && plan.specs[i].id == id)
            && (forall id :: id in plan.before ==> id in before && plan.before[id] == before[id])
  {
    hide PreviewDetails, Digits, Kept, DataViewPlans.SkippedRow;
    KeptMembers(specs, before, false);
    KeptMembers(specs, before, true);
    forall spec | spec in specs ensures spec.id in before {
      var i :| 0 <= i < |specs| && specs[i] == spec;
      assert specs[i].id in IdSet(specs);
    }
    var kept := Kept(specs, before, true);
    forall i | 0 <= i < |kept| ensures kept[i] in specs && before[kept[i].id].Some? {
      assert kept[i] in kept;
    }
    forall i | 0 <= i < |specs| && before[specs[i].id].Some?
      ensures DataViewPlans.SkippedRow(specs[i].id) in SkippedRows(kept)
    {
      assert specs[i] in specs && specs[i] in kept;
      var j :| 0 <= j < |kept| && kept[j] == specs[i];
      assert SkippedRows(kept)[j] == DataViewPlans.SkippedRow(specs[i].id);
    }
  }

  /** One line per dashboard, in order, saying what the snapshot makes of it. */
  lemma {:induction false} PreviewDetailsAre(specs: seq<Spec>, before: map<string, Option<Spec>>)
    requires forall i :: 0 <= i < |specs| ==> specs[i].id in before
    ensures var lines := PreviewDetails(specs, before);
            && |lines| == |specs|
            && forall i :: 0 <= i < |specs| ==>
                 var (spec, current) := (specs[i], before[specs[i].id]);
                 if current.None? then lines[i] == spec.id + "  create  " + Title(spec.data)
                 else if current.value.id == spec.id && Same(Obj(current.value.data), Obj(spec.data))
                 then lines[i] == spec.id + "  no-op  " + Title(spec.data)
                 else lines[i] == spec.id + "  replace  " + Title(current.value.data) + " -> " + Title(spec.data)
  {
    hide Same, Title;
    if specs == [] {
    } else {
      var rest := specs[1..];
      forall i | 0 <= i < |rest| ensures rest[i] == specs[i + 1] && rest[i].id in before {}
      PreviewDetailsAre(rest, before);
      assert PreviewDetails(specs, before) ==
             [PreviewLine(specs[0], before[specs[0].id])] + PreviewDetails(rest, before);
    }
  }

  /** Planner and validator agree: whatever was read, a plan without conflicts is accepted. */
  lemma PlannedIsAccepted(specs: seq<Spec>, before: map<string, Option<Spec>>, overwrite: bool, skipExisting: bool)
    requires specs != [] && AllValid(specs) && Ascending(Ids(specs)) && Snapshots(specs, before)
    requires !(overwrite && skipExisting)
    requires !overwrite && !skipExisting ==> forall id :: id in before ==> before[id].None?
    ensures Accepted(PlanOf(specs, before, overwrite, skipExisting))
  {
    hide PreviewDetails, ImportAction, Ascending, ValidSpec, DataViewPlans.SkippedAccepted;
    if skipExisting {
      var pending, skipped := Kept(specs, before, false), Kept(specs, before, true);
      KeptMembers(specs, before, false);
      KeptMembers(specs, before, true);
      KeptAscends(specs, before, false);
      KeptAscends(specs, before, true);
      forall i | 0 <= i < |pending|
        ensures ValidSpec(pending[i]) && pending[i].id in before && before[pending[i].id].None?
      {
        assert pending[i] in specs;
        KnownId(specs, before, pending[i]);
      }
      forall i | 0 <= i < |skipped| ensures ValidSpec(skipped[i]) && skipped[i].id !in IdSet(pending) {
        assert skipped[i] in specs && Exists(before, skipped[i].id);
      }
      RowsAccepted(skipped, IdSet(pending));
      assert Restricted(before, IdSet(pending)).Keys == IdSet(pending);
    } else {
      assert Ascending(Ids([])) by { NothingAscends(); }
      RowsAccepted([], IdSet(specs));
      forall i | 0 <= i < |specs| ensures specs[i].id in before {
        KnownId(specs, before, specs[i]);
      }
    }
  }

  lemma NothingAscends()
    ensures Ascending(Ids([]))
  {}

  lemma KnownId(specs: seq<Spec>, before: map<string, Option<Spec>>, spec: Spec)
    requires Snapshots(specs, before) && spec in specs
    ensures spec.id in before
  {
    var i :| 0 <= i < |specs| && specs[i] == spec;
    assert specs[i].id in IdSet(specs);
  }

  lemma RowsAccepted(skipped: seq<Spec>, pending: set<string>)
    requires Ascending(Ids(skipped)) && AllValid(skipped)
    requires forall i :: 0 <= i < |skipped| ==> skipped[i].id !in pending
    ensures DataViewPlans.SkippedAccepted(SkippedRows(skipped), pending)
  {
    hide Below;
    var rows := SkippedRows(skipped);
    forall i | 0 <= i < |rows|
      ensures DataViewPlans.RowId(rows[i]) == skipped[i].id
      ensures DataViewPlans.IsSkippedRow(rows[i]) && DataViewPlans.RowId(rows[i]) !in pending
    {
      assert ValidSpec(skipped[i]);
    }
    assert DataViewPlans.RowIds(rows) == Ids(skipped);
  }

  /** Validate the artifact, read every dashboard and every referenced data view once, and prepare the
      guarded import. Whatever the server answers, nothing is written, a plan that comes back passes
      the validator and follows the answers, and every data view it needs has been seen. */
  method PlanImport(server: Server?, artifact: Option<seq<Spec>>, overwrite: bool, skipExisting: bool)
    returns (plan: Option<Plan>, ghost specs: seq<Spec>, ghost before: map<string, Option<Spec>>,
    ghost events: seq<Event>)
    modifies server
    ensures server != null ==> server.log == old(server.log) + events && forall event :: event in events ==>
              Reading(event)
    ensures plan.Some? ==>
              && Accepted(plan.value) && plan.value == PlanOf(specs, before, overwrite, skipExisting)
              && artifact.Some? && multiset(specs) == multiset(artifact.value)
              && (if server == null then forall id :: id in before ==> before[id].None?
                  else |specs| <= |events| && Reads(specs, before, events[..|specs|]))
              && (forall id :: id in AllReferences(specs) ==> server != null && GetView(id, View(Some(id))) in events)
    // wherever in a dashboard a data view is referred to
    ensures plan.Some? && (forall i :: 0 <= i < |specs| ==> WellFormed(Obj(specs[i].data))) ==>
              forall i, position, id :: 0 <= i < |specs| && RefersAt(Obj(specs[i].data), position, id) ==>
                server != null && GetView(id, View(Some(id))) in events
    // an unusable one is always refused
    ensures plan.Some? ==>
              && artifact.value != [] && AllValid(artifact.value) && DistinctBy(artifact.value, IdOf)
              && !(overwrite && skipExisting)
              && (overwrite || skipExisting || AllReferences(specs) != {} ==> server != null)
    // a usable artifact is refused only for what the server answered
    ensures plan.None? && artifact.Some? && artifact.value != [] && AllValid(artifact.value) &&
            DistinctBy(artifact.value, IdOf) && !(overwrite && skipExisting) &&
            (overwrite || skipExisting || AllReferences(specs) != {} ==> server != null) ==>
              || (exists event :: event in events && Forbids(event, !overwrite && !skipExisting))
              || (exists id, view ::
                    id in AllReferences(specs) && GetView(id, view) in events && view != View(Some(id)))
  {
    hide ValidSpec, Ascending, Accepted, AllValid, Snapshots, Reads, AllReferences, PlanOf, Reading, Forbids;
    hide RefersAt, WellFormed;
    specs, before, events := [], map[], [];
    if artifact.None? {
      return None, specs, before, events;
    }
    var validated := ValidateArtifact(artifact.value);
    if validated.None? {
      return None, specs, before, events;
    }
    var boards := validated.value;
    specs := boards;
    SameCount(boards, artifact.value);
    if boards == [] || (overwrite && skipExisting) {
      return None, specs, before, events;
    }
    var references := AllReferences(boards);
    if (overwrite || skipExisting || references != {}) && server == null {
      return None, specs, before, events;
    }
    var snapshots: map<string, Option<Spec>>;
    if server == null {
      snapshots := map id | id in IdSet(boards) :: None;
      AllNew(boards, snapshots);
    } else {
      var read, conflict := None, false;
      read, conflict, events := ReadSnapshots(server, boards, !overwrite && !skipExisting);
      if read.None? {
        return None, specs, before, events;
      }
      snapshots := read.value;
      ReadsCount(boards, snapshots, events);
      ghost var shown := events;
      ghost var looked;
      var ok;
      ok, looked := CheckReferences(server, references);
      events := events + looked;
      assert events[..|boards|] == shown;
      assert forall event :: event in shown || event in looked ==> event in events;
      if !ok || conflict {
        return None, specs, before, events;
      }
    }
    before := snapshots;
    PlannedIsAccepted(boards, snapshots, overwrite, skipExisting);
    plan := Some(PlanOf(boards, snapshots, overwrite, skipExisting));
    if forall i :: 0 <= i < |specs| ==> WellFormed(Obj(specs[i].data)) {
      forall i, position, id | 0 <= i < |specs| && RefersAt(Obj(specs[i].data), position, id)
        ensures id in references
      {
        AllReferencesAre(specs, id);
      }
    }
  }

  lemma SameCount(a: seq<Spec>, b: seq<Spec>)
    requires multiset(a) == multiset(b)
    ensures |a| == |b|
  {
    assert |multiset(a)| == |multiset(b)|;
  }

  lemma ReadsCount(specs: seq<Spec>, before: map<string, Option<Spec>>, events: seq<Event>)
    requires Reads(specs, before, events)
    ensures |events| == |specs|
  {}

  lemma AllNew(specs: seq<Spec>, before: map<string, Option<Spec>>)
    requires before.Keys == IdSet(specs) && forall id :: id in before ==> before[id].None?
    ensures Snapshots(specs, before)
  {}
}
