/** Planning and applying a data-view deletion against a server whose calls may fail before or after
    they took effect, and whose state others may replace before any call. */
module DataViewRemoval {
  import opened Wrappers
  import opened Sequences
  import opened DataViews
  import opened DataViewDeletion

  /** A saved object and the data view it refers to. */
  datatype Link = Link(reference: Reference, view: string)

  datatype State = State(views: seq<Summary>, links: seq<Link>, dflt: Option<string>)

  /** Done and answered, not done, or done without an answer. */
  datatype Fate = Served | Refused | Unheard

  /** What happens around one call: another writer's new state, its fate, and for a swap the
      references it leaves behind and whether it deletes the source at all. */
  datatype Turn = Turn(others: Option<State>, fate: Fate, stuck: set<Reference>, deletes: bool)

  datatype Event =
    | Listed(views: Option<seq<Summary>>)
    | Previewed(id: string, refs: Option<seq<Reference>>)
    | DefaultRead(answer: Option<Option<string>>)
    | DeleteView(id: string, ok: bool)
    | Swapped(source: string, target: string, status: Option<(bool, nat)>)
    | DefaultSet(id: string, ok: bool)
  {
    predicate Write() { DeleteView? || Swapped? || DefaultSet? }
  }

  function ReferencesTo(links: seq<Link>, id: string): seq<Reference> {
    if links == [] then []
    else ReferencesTo(links[..|links| - 1], id) +
         if links[|links| - 1].view == id then [links[|links| - 1].reference] else []
  }

  /** A preview lists one reference for each link to the data view. */
  lemma {:induction false} ReferencesToAre(links: seq<Link>, id: string, r: Reference)
    ensures r in ReferencesTo(links, id) <==> Link(r, id) in links
    ensures multiset(ReferencesTo(links, id))[r] == multiset(links)[Link(r, id)]
  {
    if links == [] {
    } else {
      var k := |links| - 1;
      ReferencesToAre(links[..k], id, r);
      assert links == links[..k] + [links[k]];
    }
  }

  /** An empty default reads as none. */
  function DefaultOf(state: State): Option<string> { if state.dflt == Some("") then None else state.dflt }

  function Without(views: seq<Summary>, ids: set<string>): seq<Summary> {
    if views == [] then []
    else Without(views[..|views| - 1], ids) + if views[|views| - 1].id in ids then [] else [views[|views| - 1]]
  }

  function Redirect(links: seq<Link>, source: string, target: string, stuck: set<Reference>): seq<Link> {
    seq(|links|, i requires 0 <= i < |links| =>
      if links[i].view == source && links[i].reference !in stuck then links[i].(view := target) else links[i])
  }

  /** No reference is lost or made up; only those to the source may have moved, to the target. */
  predicate Redirected(a: seq<Link>, b: seq<Link>, source: string, target: string) {
    && |b| == |a|
    && forall i :: 0 <= i < |a| ==>
         && b[i].reference == a[i].reference
         && (b[i].view == a[i].view || (a[i].view == source && b[i].view == target))
  }

  function Removed(state: State, id: string): State { state.(views := Without(state.views, {id})) }

  predicate SwapStep(a: State, b: State, source: string, target: string, status: Option<(bool, nat)>) {
    && b.dflt == a.dflt && Redirected(a.links, b.links, source, target)
    && (b.views == a.views || b.views == Without(a.views, {source}))
    && (status.Some? ==>
          && status.value.1 == |ReferencesTo(b.links, source)|
          && (status.value.0 ==> b.views == Without(a.views, {source})))
  }

  lemma HasIdPush(views: seq<Summary>, view: Summary, id: string)
    ensures HasId(views + [view], id) <==> HasId(views, id) || view.id == id
  {
    var all := views + [view];
    if i :| 0 <= i < |views| && views[i].id == id {
      assert all[i].id == id;
    }
    assert all[|views|] == view;
    if i :| 0 <= i < |views| && all[i].id == id {
      assert views[i].id == id;
    }
  }

  lemma {:induction false} WithoutIds(views: seq<Summary>, ids: set<string>, id: string)
    ensures HasId(Without(views, ids), id) <==> HasId(views, id) && id !in ids
  {
    if views == [] {
    } else {
      hide HasId;
      var k := |views| - 1;
      WithoutIds(views[..k], ids, id);
      HasIdPush(views[..k], views[k], id);
      HasIdPush(Without(views[..k], ids), views[k], id);
      assert views == views[..k] + [views[k]];
      assert Without(views[..k], ids) + [] == Without(views[..k], ids);
    }
  }

  lemma {:induction false} WithoutTwice(views: seq<Summary>, a: set<string>, b: set<string>)
    ensures Without(Without(views, a), b) == Without(views, a + b)
  {
    if views == [] {
    } else {
      var k := |views| - 1;
      WithoutTwice(views[..k], a, b);
      var rest := Without(views[..k], a);
      if views[k].id !in a {
        assert (rest + [views[k]])[..|rest|] == rest;
      } else {
        assert rest + [] == rest;
      }
    }
  }

  lemma {:induction false} WithoutNone(views: seq<Summary>)
    ensures Without(views, {}) == views
  {
    if views == [] {
    } else {
      WithoutNone(views[..|views| - 1]);
    }
  }

  lemma {:induction false} RedirectedAll(links: seq<Link>, source: string, target: string)
    requires source != target
    ensures ReferencesTo(Redirect(links, source, target, {}), source) == []
  {
    if links == [] {
    } else {
      var k := |links| - 1;
      RedirectedAll(links[..k], source, target);
      assert Redirect(links, source, target, {})[..k] == Redirect(links[..k], source, target, {});
    }
  }

  class Kibana {
    var state: State
    var turns: seq<Turn>
    var log: seq<Event>

    /** No other writer. */
    ghost predicate Quiet() reads this { forall i :: 0 <= i < |turns| ==> turns[i].others.None? }

    /** No other writer and no failing call. */
    ghost predicate Calm() reads this { forall i :: 0 <= i < |turns| ==> turns[i] == Turn(None, Served, {}, true) }

    method Next() returns (turn: Turn)
      modifies this`state, this`turns
      ensures old(Quiet()) ==> Quiet() && state == old(state)
      ensures old(Calm()) ==> Calm() && state == old(state) && turn == Turn(None, Served, {}, true)
    {
      turn := Turn(None, Served, {}, true);
      if turns != [] {
        turn := turns[0];
        turns := turns[1..];
      }
      if turn.others.Some? {
        state := turn.others.value;
      }
    }

    method List() returns (views: Option<seq<Summary>>)
      modifies this
      ensures log == old(log) + [Listed(views)]
      ensures old(Quiet()) ==> Quiet() && state == old(state) && (views.Some? ==> views.value == state.views)
      ensures old(Calm()) ==> Calm() && views.Some?
    {
      var turn := Next();
      views := if turn.fate.Served? then Some(state.views) else None;
      log := log + [Listed(views)];
    }

    /** The saved objects a swap of `id` would change. */
    method PreviewSwap(id: string) returns (refs: Option<seq<Reference>>)
      modifies this
      ensures log == old(log) + [Previewed(id, refs)]
      ensures old(Quiet()) ==> Quiet() && state == old(state) && (refs.Some? ==>
                refs.value == ReferencesTo(state.links, id))
      ensures old(Calm()) ==> Calm() && refs.Some?
    {
      var turn := Next();
      refs := if turn.fate.Served? then Some(ReferencesTo(state.links, id)) else None;
      log := log + [Previewed(id, refs)];
    }

    method GetDefault() returns (answer: Option<Option<string>>)
      modifies this
      ensures log == old(log) + [DefaultRead(answer)]
      ensures answer != Some(Some(""))
      ensures old(Quiet()) ==>
                && Quiet() && state == old(state)
                && (answer.Some? ==> answer.value == if state.dflt == Some("") then None else state.dflt)
      ensures old(Calm()) ==> Calm() && answer.Some?
    {
      var turn := Next();
      answer := if turn.fate.Served? then Some(DefaultOf(state)) else None;
      log := log + [DefaultRead(answer)];
    }

    method Delete(id: string) returns (ok: bool)
      modifies this
      ensures log == old(log) + [DeleteView(id, ok)]
      ensures old(Quiet()) ==> Quiet() && (state == old(state) || state == Removed(old(state), id))
      ensures old(Quiet()) && ok ==> state == Removed(old(state), id)
      ensures old(Calm()) ==> Calm() && (ok <==> HasId(old(state).views, id))
    {
      var turn := Next();
      ok := turn.fate.Served? && HasId(state.views, id);
      if !turn.fate.Refused? {
        state := Removed(state, id);
      }
      log := log + [DeleteView(id, ok)];
    }

    method Swap(source: string, target: string) returns (status: Option<(bool, nat)>)
      modifies this
      ensures log == old(log) + [Swapped(source, target, status)]
      ensures old(Quiet()) ==> Quiet() && SwapStep(old(state), state, source, target, status)
      ensures old(Calm()) && source != target ==> Calm() && status == Some((true, 0))
    {
      var turn := Next();
      status := None;
      if !turn.fate.Refused? {
        var links := Redirect(state.links, source, target, turn.stuck);
        var left := |ReferencesTo(links, source)|;
        var performed := turn.deletes && left == 0;
        RedirectedAll(state.links, source, if source == target then source + "x" else target);
        state := state.(links := links, views := if performed then Without(state.views, {source}) else state.views);
        status := if turn.fate.Served? then Some((performed, left)) else None;
      }
      log := log + [Swapped(source, target, status)];
    }

    /** A blank id is refused before anything is sent. */
    method SetDefault(id: string) returns (ok: bool)
      modifies this
      ensures log == old(log) + if Blank(id) then [] else [DefaultSet(id, ok)]
      ensures ok ==> !Blank(id)
      ensures old(Quiet()) ==> Quiet() && (state == old(state) || state == old(state).(dflt := Some(id)))
      ensures old(Quiet()) && ok ==> state == old(state).(dflt := Some(id))
      ensures old(Calm()) ==> Calm() && (ok <==> !Blank(id))
    {
      if Blank(id) {
        return false;
      }
      var turn := Next();
      ok := turn.fate.Served?;
      if !turn.fate.Refused? {
        state := state.(dflt := Some(id));
      }
      log := log + [DefaultSet(id, ok)];
    }
  }

  // ---- the planner ----

  function ListingsOf(links: seq<Link>, sources: seq<Summary>): (r: seq<seq<Reference>>)
    ensures |r| == |sources|
  {
    seq(|sources|, i requires 0 <= i < |sources| => ReferencesTo(links, sources[i].id))
  }

  /** The plan made from one state of the server. */
  function PlanOf(state: State, selectors: seq<string>, replaceWith: Option<string>): Option<DeletePlan> {
    var selected := Selected(state.views, selectors, replaceWith);
    if selected.None? then None
    else PlanFrom(state.views, selectors, replaceWith, DefaultOf(state), ListingsOf(state.links, selected.value.0))
  }

  /** What the plan says of the target holds in this state. */
  predicate Holds(target: Target, defaultBefore: Option<string>, state: State) {
    && NormalizeReferences(ReferencesTo(state.links, target.source.id)) == Some(target.references)
    && DefaultOf(state) == defaultBefore
  }

  predicate Current(plan: DeletePlan, state: State) {
    forall i :: 0 <= i < |plan.targets| ==>
      Holds(plan.targets[i], plan.defaultBefore, state) && HasId(state.views, plan.targets[i].source.id)
  }

  lemma {:induction false} SourcesListed(views: seq<Summary>, selectors: seq<string>)
    requires Sources(views, selectors).Some?
    ensures forall v :: v in Sources(views, selectors).value ==> v in views
  {
    if selectors == [] {
    } else {
      SourcesListed(views, selectors[..|selectors| - 1]);
      ResolveFinds(views, selectors[|selectors| - 1]);
    }
  }

  /** A fresh plan, if its views and default have names, is accepted and holds of the server. */
  lemma FreshPlanIsCurrent(state: State, selectors: seq<string>, replaceWith: Option<string>)
    requires PlanOf(state, selectors, replaceWith).Some?
    ensures var plan := PlanOf(state, selectors, replaceWith).value;
            var (sources, replacement) := Selected(state.views, selectors, replaceWith).value;
            Current(plan, state) && (DeleteAccepted(plan) <==> Identified(sources, replacement, DefaultOf(state)))
  {
    hide DeleteAccepted, Identified, Named, SortedOnce, DeletePreview;
    var sources := Sources(state.views, selectors).value;
    var listings := ListingsOf(state.links, sources);
    var plan := PlanOf(state, selectors, replaceWith).value;
    PlannedAcceptedIff(state.views, selectors, replaceWith, DefaultOf(state), listings);
    TargetsAre(sources, listings, DefaultOf(state));
    SourcesListed(state.views, selectors);
    forall i | 0 <= i < |plan.targets|
      ensures Holds(plan.targets[i], plan.defaultBefore, state) && HasId(state.views, plan.targets[i].source.id)
    {
      assert plan.targets[i].source == sources[i];
      assert sources[i] in state.views;
    }
  }

  predicate ReadsOnly(events: seq<Event>) { forall i :: 0 <= i < |events| ==> !events[i].Write() }

  predicate FailedRead(event: Event) {
    event in {Listed(None), DefaultRead(None)} || (event.Previewed? && event.refs.None?)
  }

  predicate MalformedListing(event: Event) { event.Previewed? && event.refs.Some? && !Named(event.refs.value) }

  /** The reads of references show these listings, in the order of the sources. */
  predicate Shown(sources: seq<Summary>, listings: seq<seq<Reference>>, events: seq<Event>) {
    && |events| == |listings| == |sources|
    && forall i :: 0 <= i < |sources| ==> events[i] == Previewed(sources[i].id, Some(listings[i]))
  }

  /** A plan is made from exactly these answers, each asked for once. */
  predicate Observed(
    selectors: seq<string>, replaceWith: Option<string>, seen: seq<Summary>, dflt: Option<string>,
    listings: seq<seq<Reference>>, events: seq<Event>)
  {
    && |events| >= 2 && events[0] == Listed(Some(seen)) && events[1] == DefaultRead(Some(dflt))
    && Selected(seen, selectors, replaceWith).Some?
    && Shown(Selected(seen, selectors, replaceWith).value.0, listings, events[2..])
  }

  /** Resolve every selector against one listing and inspect all references; nothing is written. A
      refusal has its cause in the answers: a read failed, a listing was malformed, or the plan that
      they would give is not allowed. */
  method PlanDelete(server: Kibana, selectors: seq<string>, replaceWith: Option<string>)
    returns (plan: Option<DeletePlan>, ghost events: seq<Event>,
             ghost seen: seq<Summary>, ghost dflt: Option<string>, ghost listings: seq<seq<Reference>>)
    modifies server
    ensures server.log == old(server.log) + events && ReadsOnly(events)
    ensures plan.Some? ==>
              && plan == PlanFrom(seen, selectors, replaceWith, dflt, listings)
              && Observed(selectors, replaceWith, seen, dflt, listings, events)
              && CoversSelectors(seen, selectors, plan.value)
    ensures selectors == [] ==> plan.None? && events == []
    ensures plan.None? && selectors != [] ==>
              || (exists event :: event in events && (FailedRead(event) || MalformedListing(event)))
              || (events == [Listed(Some(seen))] && Selected(seen, selectors, replaceWith).None?)
              || (Observed(selectors, replaceWith, seen, dflt, listings, events)
                  && PlanFrom(seen, selectors, replaceWith, dflt, listings).None?)
    ensures old(server.Quiet()) ==>
              server.Quiet() && server.state == old(server.state) &&
              (plan.None? || plan == PlanOf(server.state, selectors, replaceWith))
    ensures old(server.Calm()) ==> server.Calm() && plan == PlanOf(server.state, selectors, replaceWith)
  {
    hide Targets, DeletePreview, Sources, Resolve, Harmless, ReferencesTo, MalformedListing, FailedRead, Observed;
    hide CoversSelectors;
    events, seen, dflt, listings := [], [], None, [];
    if selectors == [] {
      return None, events, seen, dflt, listings;
    }
    var views := server.List();
    events := [Listed(views)];
    if views.None? {
      ReadFails(events, 0);
      return None, events, seen, dflt, listings;
    }
    seen := views.value;
    var selected := Selected(views.value, selectors, replaceWith);
    if selected.None? {
      return None, events, seen, dflt, listings;
    }
    var (sources, replacement) := selected.value;
    var answer := server.GetDefault();
    events := events + [DefaultRead(answer)];
    if answer.None? {
      ReadFails(events, 1);
      return None, events, seen, dflt, listings;
    }
    dflt := answer.value;
    var targets;
    ghost var first := events;
    ghost var previews;
    targets, previews, listings := InspectReferences(server, sources, answer.value);
    events := first + previews;
    if targets.Some? {
      assert first == [Listed(Some(seen)), DefaultRead(Some(dflt))];
      AnswersObserved(selectors, replaceWith, seen, dflt, listings, previews);
    }
    SourcesDistinct(seen, selectors);
    if targets.None? || (replacement.None? && !Harmless(targets.value)) {
      assert forall event :: event in previews ==> event in events;
      return None, events, seen, dflt, listings;
    }
    plan := Some(DeletePlan(DeletePreview(targets.value, replacement), targets.value, replacement, answer.value));
    PlanCoversSelectors(seen, selectors, replaceWith, dflt, listings);
  }

  lemma ReadFails(events: seq<Event>, i: nat)
    requires i < |events| && events[i] in {Listed(None), DefaultRead(None)}
    ensures exists event :: event in events && FailedRead(event)
  {
    assert events[i] in events;
  }

  lemma AnswersObserved(
    selectors: seq<string>, replaceWith: Option<string>, seen: seq<Summary>, dflt: Option<string>,
    listings: seq<seq<Reference>>, previews: seq<Event>)
    requires Selected(seen, selectors, replaceWith).Some?
    requires Shown(Selected(seen, selectors, replaceWith).value.0, listings, previews)
    ensures Observed(selectors, replaceWith, seen, dflt, listings, [Listed(Some(seen)),
      DefaultRead(Some(dflt))] + previews)
  {
    hide Selected, Shown;
    assert ([Listed(Some(seen)), DefaultRead(Some(dflt))] + previews)[2..] == previews;
  }

  /** Preview the references of every source; None when a call fails or an answer is malformed. */
  method InspectReferences(server: Kibana, sources: seq<Summary>, dflt: Option<string>)
    returns (targets: Option<seq<Target>>, ghost events: seq<Event>, ghost listings: seq<seq<Reference>>)
    modifies server
    ensures server.log == old(server.log) + events && ReadsOnly(events)
    ensures targets.Some? ==>
              |listings| == |sources| && Shown(sources, listings, events) && targets == Targets(sources, listings, dflt)
    ensures targets.None? ==> exists event :: event in events && (FailedRead(event) || MalformedListing(event))
    ensures old(server.Quiet()) ==>
              server.Quiet() && server.state == old(server.state) &&
              (targets.None? || (listings == ListingsOf(server.state.links, sources) && |targets.value| == |sources|))
    ensures old(server.Calm()) ==>
              server.Calm() && targets == Targets(sources, ListingsOf(server.state.links, sources), dflt)
  {
    hide NormalizeReferences, Targets, ReferencesTo, Named;
    events, listings := [], [];
    var found: seq<Target> := [];
    NoTargets(dflt);
    for k := 0 to |sources|
      invariant |listings| == k && Targets(sources[..k], listings, dflt) == Some(found)
      invariant Shown(sources[..k], listings, events)
      invariant server.log == old(server.log) + events && ReadsOnly(events)
      invariant old(server.Quiet()) ==> server.Quiet() && server.state == old(server.state)
      invariant old(server.Quiet()) ==> listings == ListingsOf(server.state.links, sources[..k])
      invariant old(server.Calm()) ==>
                  server.Quiet() && server.Calm() && listings == ListingsOf(server.state.links, sources[..k])
    {
      var refs := server.PreviewSwap(sources[k].id);
      ghost var latest := Previewed(sources[k].id, refs);
      events := events + [latest];
      assert latest in events;
      if refs.None? {
        return None, events, listings;
      }
      TargetsPush(sources, listings, refs.value, dflt, k);
      listings := listings + [refs.value];
      var normalized := NormalizeReferences(refs.value);
      if normalized.None? {
        NotNamed(refs.value);
        if old(server.Calm()) {
          TargetsStayMalformed(sources, ListingsOf(server.state.links, sources), dflt, k);
        }
        return None, events, listings;
      }
      found := found + [Target(sources[k], normalized.value, dflt == Some(sources[k].id))];
    }
    assert sources[..|sources|] == sources;
    targets := Some(found);
  }

  lemma NotNamed(refs: seq<Reference>)
    requires NormalizeReferences(refs).None?
    ensures !Named(refs)
  {}

  lemma NoTargets(dflt: Option<string>)
    ensures Targets([], [], dflt) == Some([])
  {}

  lemma TargetsPush(
    sources: seq<Summary>, listings: seq<seq<Reference>>, refs: seq<Reference>, dflt: Option<string>, k: nat)
    requires k < |sources| && |listings| == k
    ensures var before, normalized := Targets(sources[..k], listings, dflt), NormalizeReferences(refs);
            Targets(sources[..k + 1], listings + [refs], dflt) ==
            if before.None? || normalized.None? then None
            else Some(before.value + [Target(sources[k], normalized.value, dflt == Some(sources[k].id))])
  {
    assert sources[..k + 1][..k] == sources[..k] && (listings + [refs])[..k] == listings;
  }

  lemma TargetsStayMalformed(sources: seq<Summary>, listings: seq<seq<Reference>>, dflt: Option<string>, k: nat)
    requires |listings| == |sources| && k < |sources| && NormalizeReferences(listings[k]).None?
    ensures Targets(sources, listings, dflt).None?
  {
    TargetsAre(sources, listings, dflt);
    assert !Named(listings[k]);
  }

  // ---- applying a plan ----

  /** Right before the write, the two reads showed what the plan was made from. */
  predicate Confirmed(target: Target, defaultBefore: Option<string>, events: seq<Event>) {
    && |events| >= 2 && events[0].Previewed? && events[0].id == target.source.id && events[0].refs.Some?
    && NormalizeReferences(events[0].refs.value) == Some(target.references)
    && events[1] == DefaultRead(Some(defaultBefore))
  }

  /** The source was deleted by a swap that left no reference behind. */
  predicate SwappedAway(event: Event, id: string, view: Summary) {
    event == Swapped(id, view.id, Some((true, 0)))
  }

  /** What one target's row rests on, whatever others did to the server meanwhile. */
  predicate Justified(
    target: Target, replacement: Option<Summary>, defaultBefore: Option<string>, events: seq<Event>, done: bool)
  {
    var id := target.source.id;
    && events != [] && events[0].Previewed? && events[0].id == id
    // references that normalize are followed by the default
    && (events[0].refs.Some? && NormalizeReferences(events[0].refs.value).Some? ==>
        |events| >= 2 && events[1].DefaultRead?)
    // the view is deleted or swapped if and only if the reads right before confirmed the plan, and once
    && (Confirmed(target, defaultBefore, events) ==> |events| >= 3 && events[2].Write())
    && (forall i :: 0 <= i < |events| && events[i].Write() ==>
          && i >= 2 && Confirmed(target, defaultBefore, events)
          && match replacement
             case None => i == 2 && events[i].DeleteView? && events[i].id == id
             case Some(view) =>
               if i == 2 then events[i].Swapped? && events[i].source == id && events[i].target == view.id
               else i == 4 && events[i].DefaultSet? && events[i].id == view.id && target.wasDefault &&
                    SwappedAway(events[2], id, view) && events[3] == DefaultRead(Some(Some(id))))
    // after a swap the default is looked at, and moved if it still is the source
    && (replacement.Some? && |events| >= 3 && SwappedAway(events[2], id, replacement.value) && target.wasDefault ==>
          && |events| >= 4 && events[3].DefaultRead?
          && (events[3] == DefaultRead(Some(Some(id))) ==> |events| == 5 && events[4].Write()))
    && (done <==>
          |events| >= 3 &&
          match replacement
          case None => events[2] == DeleteView(id, true)
          case Some(view) =>
            && SwappedAway(events[2], id, view)
            && (target.wasDefault ==>
                  || (|events| == 4 && events[3] == DefaultRead(Some(Some(view.id))))
                  || (|events| == 5 && events[4] == DefaultSet(view.id, true))))
  }

  method CheckSnapshot(server: Kibana, target: Target, defaultBefore: Option<string>)
    returns (ok: bool, ghost events: seq<Event>)
    modifies server
    ensures server.log == old(server.log) + events && ReadsOnly(events)
    ensures 1 <= |events| <= 2 && events[0].Previewed? && events[0].id == target.source.id
    ensures events[0].refs.Some? && NormalizeReferences(events[0].refs.value).Some? ==>
              |events| == 2 && events[1].DefaultRead?
    ensures ok <==> Confirmed(target, defaultBefore, events)
    ensures old(server.Quiet()) ==> server.Quiet() && server.state == old(server.state)
    ensures old(server.Quiet()) && ok ==> Holds(target, defaultBefore, server.state)
    ensures old(server.Calm()) ==> server.Calm() && (ok <==> Holds(target, defaultBefore, server.state))
  {
    hide NormalizeReferences;
    var refs := server.PreviewSwap(target.source.id);
    events := [Previewed(target.source.id, refs)];
    if refs.None? {
      return false, events;
    }
    var normalized := NormalizeReferences(refs.value);
    if normalized.None? {
      return false, events;
    }
    var dflt := server.GetDefault();
    events := events + [DefaultRead(dflt)];
    ok := dflt.Some? && normalized.value == target.references && dflt.value == defaultBefore;
  }

  method DeleteOne(server: Kibana, target: Target, defaultBefore: Option<string>)
    returns (done: bool, ghost events: seq<Event>)
    modifies server
    ensures server.log == old(server.log) + events && Justified(target, None, defaultBefore, events, done)
    ensures old(server.Quiet()) ==>
              server.Quiet() && (server.state == old(server.state) || server.state == Removed(old(server.state),
                target.source.id))
    ensures old(server.Quiet()) && done ==>
              server.state == Removed(old(server.state), target.source.id) &&
              Holds(target, defaultBefore, old(server.state))
    ensures old(server.Calm()) ==> server.Calm()
    ensures old(server.Calm()) && HasId(old(server.state).views, target.source.id) ==>
              Holds(target, defaultBefore, old(server.state)) ==> done
  {
    hide Holds, Removed;
    done, events := CheckSnapshot(server, target, defaultBefore);
    if done {
      done := server.Delete(target.source.id);
      events := events + [DeleteView(target.source.id, done)];
    }
  }

  /** Gone, no longer referred to, and not the default. */
  predicate Settled(state: State, id: string) {
    !HasId(state.views, id) && ReferencesTo(state.links, id) == [] && DefaultOf(state) != Some(id)
  }

  /** What replacing one view may change. */
  predicate Replaced(a: State, b: State, source: string, target: string) {
    && (b.views == a.views || b.views == Without(a.views, {source}))
    && Redirected(a.links, b.links, source, target)
    && (b.dflt == a.dflt || (DefaultOf(a) == Some(source) && b.dflt == Some(target)))
  }

  method ReplaceOne(server: Kibana, target: Target, view: Summary, defaultBefore: Option<string>)
    returns (done: bool, ghost events: seq<Event>)
    requires TargetAccepted(target, defaultBefore) && view.id != target.source.id && !Blank(view.id)
    modifies server
    ensures server.log == old(server.log) + events && Justified(target, Some(view), defaultBefore, events, done)
    ensures old(server.Quiet()) ==>
              server.Quiet() && Replaced(old(server.state), server.state, target.source.id, view.id)
    ensures old(server.Quiet()) && done ==> Settled(server.state, target.source.id)
    ensures old(server.Calm()) ==> server.Calm() && (Holds(target, defaultBefore, old(server.state)) ==> done)
  {
    hide NormalizeReferences, Redirected, Without, HasId, Blank;
    var id := target.source.id;
    done, events := CheckSnapshot(server, target, defaultBefore);
    if !done {
      ReplacedNothing(server.state, id, view.id);
      return;
    }
    ghost var before := server.state;
    var status := server.Swap(id, view.id);
    events := events + [Swapped(id, view.id, status)];
    WithoutIds(before.views, {id}, id);
    if status.None? || !status.value.0 || status.value.1 != 0 {
      return false, events;
    }
    if !target.wasDefault {
      return true, events;
    }
    ghost var more;
    done, more := MoveDefault(server, id, view.id);
    events := events + more;
  }

  lemma ReplacedNothing(a: State, source: string, target: string)
    ensures Replaced(a, a, source, target)
  {}

  /** After a swap of the default view: the default follows the references. */
  method MoveDefault(server: Kibana, source: string, target: string) returns (done: bool, ghost events: seq<Event>)
    requires source != target && !Blank(target)
    modifies server
    ensures server.log == old(server.log) + events
    ensures events != [] && events[0].DefaultRead?
    ensures events[1..] == [] || (events[0] == DefaultRead(Some(Some(source))) &&
            events[1..] == [DefaultSet(target, done)])
    ensures events[0] == DefaultRead(Some(Some(source))) ==> |events| == 2
    ensures done <==>
              || events == [DefaultRead(Some(Some(target)))]
              || (|events| == 2 && events[1] == DefaultSet(target, true))
    ensures old(server.Quiet()) ==>
              && server.Quiet()
              && (server.state == old(server.state) ||
                  (DefaultOf(old(server.state)) == Some(source) &&
                  server.state == old(server.state).(dflt := Some(target))))
    ensures old(server.Quiet()) && done ==> DefaultOf(server.state) == Some(target)
    ensures old(server.Calm()) ==>
              server.Calm() && (DefaultOf(old(server.state)) == Some(source) ==> done)
  {
    var current := server.GetDefault();
    events := [DefaultRead(current)];
    if current == Some(Some(source)) {
      done := server.SetDefault(target);
      events := events + [DefaultSet(target, done)];
    } else {
      done := current == Some(Some(target));
    }
  }

  datatype DeleteReport = DeleteReport(deleted: seq<string>, failed: seq<string>, total: nat)

  function TargetIds(targets: seq<Target>): set<string> { set i | 0 <= i < |targets| :: targets[i].source.id }

  /** The ids of the targets whose row came out this way, in order. */
  function Picked(targets: seq<Target>, rows: seq<bool>, done: bool): seq<string>
    requires |rows| == |targets|
  {
    if rows == [] then []
    else
      var k := |rows| - 1;
      Picked(targets[..k], rows[..k], done) + if rows[k] == done then [targets[k].source.id] else []
  }

  lemma {:induction false} PickedCounts(targets: seq<Target>, rows: seq<bool>)
    requires |rows| == |targets|
    ensures |Picked(targets, rows, true)| + |Picked(targets, rows, false)| == |rows|
    ensures (forall i :: 0 <= i < |rows| ==> rows[i]) ==> Picked(targets, rows, false) == []
  {
    if rows == [] {
    } else {
      PickedCounts(targets[..|rows| - 1], rows[..|rows| - 1]);
    }
  }

  lemma {:induction false} PickedFrom(targets: seq<Target>, rows: seq<bool>, id: string) returns (i: nat)
    requires |rows| == |targets| && id in Picked(targets, rows, true)
    ensures i < |rows| && rows[i] && targets[i].source.id == id
  {
    var k := |rows| - 1;
    if rows[k] && targets[k].source.id == id {
      i := k;
    } else {
      i := PickedFrom(targets[..k], rows[..k], id);
    }
  }

  lemma PickedPush(targets: seq<Target>, rows: seq<bool>, done: bool)
    requires |rows| < |targets|
    ensures var k := |rows|;
            forall d :: Picked(targets[..k + 1], rows + [done], d) ==
                        Picked(targets[..k], rows, d) + if done == d then [targets[k].source.id] else []
  {
    var k := |rows|;
    assert targets[..k + 1][..k] == targets[..k] && (rows + [done])[..k] == rows;
  }

  /** All a plan may do to a server no one else writes to: views outside the plan, and unless one is
      replaced all references and the default, stay as they were. */
  ghost predicate OnlyPlanned(plan: DeletePlan, a: State, b: State)
    requires plan.targets != []
  {
    match plan.replacement
    case None =>
      && b.links == a.links && b.dflt == a.dflt
      && exists removed: set<string> :: removed <= TargetIds(plan.targets) && b.views == Without(a.views, removed)
    case Some(view) => Replaced(a, b, plan.targets[0].source.id, view.id)
  }

  ghost predicate Sessions(plan: DeletePlan, sessions: seq<seq<Event>>, rows: seq<bool>) {
    && |sessions| == |rows| <= |plan.targets|
    && forall i :: 0 <= i < |rows| ==>
         Justified(plan.targets[i], plan.replacement, plan.defaultBefore, sessions[i], rows[i])
  }

  /** Where direct deletion stands after some targets. */
  ghost predicate Progress(plan: DeletePlan, a: State, b: State, rows: seq<bool>, removed: set<string>)
    requires |rows| <= |plan.targets|
  {
    && b == a.(views := Without(a.views, removed))
    && removed <= TargetIds(plan.targets[..|rows|])
    && forall i :: 0 <= i < |rows| && rows[i] ==>
        plan.targets[i].source.id in removed && Holds(plan.targets[i], plan.defaultBefore, a)
  }

  lemma ProgressPush(plan: DeletePlan, a: State, b: State, c: State, rows: seq<bool>, removed: set<string>, done: bool)
    returns (more: set<string>)
    requires |rows| < |plan.targets| && Progress(plan, a, b, rows, removed)
    requires var target := plan.targets[|rows|];
             && (c == b || c == Removed(b, target.source.id))
             && (done ==> c == Removed(b, target.source.id) && Holds(target, plan.defaultBefore, b))
    ensures Progress(plan, a, c, rows + [done], more)
  {
    hide Holds, TargetIds, Without;
    var k := |rows|;
    var id := plan.targets[k].source.id;
    WithoutTwice(a.views, removed, {id});
    HoldsWithout(plan.targets[k], plan.defaultBefore, a, removed);
    more := if c == b && !done then removed else removed + {id};
    TargetIdsPush(plan.targets, k);
  }

  lemma HoldsWithout(target: Target, defaultBefore: Option<string>, a: State, removed: set<string>)
    ensures Holds(target, defaultBefore, a.(views := Without(a.views, removed))) <==> Holds(target, defaultBefore, a)
  {}

  lemma TargetIdsPush(targets: seq<Target>, k: nat)
    requires k < |targets|
    ensures TargetIds(targets[..k]) + {targets[k].source.id} <= TargetIds(targets[..k + 1])
  {
    forall x | x in TargetIds(targets[..k]) ensures x in TargetIds(targets[..k + 1]) {
      var i :| 0 <= i < k && targets[..k][i].source.id == x;
      assert targets[..k + 1][i].source.id == x;
    }
    assert targets[..k + 1][k] == targets[k];
  }

  lemma NoReferences(refs: seq<Reference>)
    requires NormalizeReferences(refs) == Some([])
    ensures refs == []
  {
    SortedOnceOrder(refs);
    assert refs != [] ==> refs[0] in SortedOnce(refs);
  }

  lemma ProgressSettled(plan: DeletePlan, a: State, b: State, rows: seq<bool>, removed: set<string>, i: nat)
    requires DeleteAccepted(plan) && plan.replacement.None?
    requires |rows| <= |plan.targets| && Progress(plan, a, b, rows, removed) && i < |rows| && rows[i]
    ensures Settled(b, plan.targets[i].source.id)
  {
    hide NormalizeReferences, DeletePreview, DistinctTargets;
    var target := plan.targets[i];
    assert TargetAccepted(target, plan.defaultBefore) && Holds(target, plan.defaultBefore, a);
    WithoutIds(a.views, removed, target.source.id);
    NoReferences(ReferencesTo(a.links, target.source.id));
  }

  /** The facts about a target not reached yet survive the deletions before it. */
  lemma ProgressHolds(plan: DeletePlan, a: State, b: State, rows: seq<bool>, removed: set<string>)
    requires DistinctTargets(plan.targets) && Current(plan, a)
    requires |rows| < |plan.targets| && Progress(plan, a, b, rows, removed)
    ensures Holds(plan.targets[|rows|], plan.defaultBefore, b) && HasId(b.views, plan.targets[|rows|].source.id)
  {
    var target := plan.targets[|rows|];
    assert Holds(target, plan.defaultBefore, a);
    HoldsWithout(target, plan.defaultBefore, a, removed);
    WithoutIds(a.views, removed, target.source.id);
  }

  method DeleteAll(server: Kibana, plan: DeletePlan)
    returns (deleted: seq<string>, failed: seq<string>, ghost rows: seq<bool>, ghost sessions: seq<seq<Event>>,
    ghost removed: set<string>)
    requires DeleteAccepted(plan) && plan.replacement.None?
    modifies server
    ensures |rows| == |plan.targets| && Sessions(plan, sessions, rows) &&
            server.log == old(server.log) + Concat(sessions)
    ensures deleted == Picked(plan.targets, rows, true) && failed == Picked(plan.targets, rows, false)
    ensures old(server.Quiet()) ==> Progress(plan, old(server.state), server.state, rows, removed)
    ensures old(server.Calm()) && Current(plan, old(server.state)) ==> forall i :: 0 <= i < |rows| ==> rows[i]
  {
    hide Holds, Removed, Justified, DeleteAccepted, Progress, Picked, Concat, Sessions, Current, DistinctTargets, HasId;
    deleted, failed, rows, sessions, removed := [], [], [], [], {};
    ghost var start := server.state;
    NothingYet(plan, start);
    NoSessions(plan);
    for k := 0 to |plan.targets|
      invariant |rows| == k && Sessions(plan, sessions, rows) && server.log == old(server.log) + Concat(sessions)
      invariant deleted == Picked(plan.targets[..k], rows, true) && failed == Picked(plan.targets[..k], rows, false)
      invariant old(server.Quiet()) ==> server.Quiet() && Progress(plan, start, server.state, rows, removed)
      invariant old(server.Calm()) ==>
                  server.Quiet() && server.Calm() && Progress(plan, start, server.state, rows, removed)
      invariant old(server.Calm()) && Current(plan, start) ==> forall i :: 0 <= i < |rows| ==> rows[i]
    {
      var target := plan.targets[k];
      ghost var before := server.state;
      ghost var quiet, calm := old(server.Quiet()), old(server.Calm());
      if calm && Current(plan, start) {
        AcceptedDistinct(plan);
        ProgressHolds(plan, start, before, rows, removed);
      }
      ghost var events;
      var done;
      done, events := DeleteOne(server, target, plan.defaultBefore);
      if quiet || calm {
        removed := ProgressPush(plan, start, before, server.state, rows, removed, done);
      }
      PickedPush(plan.targets, rows, done);
      SessionsPush(plan, sessions, rows, events, done);
      rows, sessions := rows + [done], sessions + [events];
      if done {
        deleted := deleted + [target.source.id];
      } else {
        failed := failed + [target.source.id];
      }
    }
    assert plan.targets[..|plan.targets|] == plan.targets;
  }

  lemma NoSessions(plan: DeletePlan)
    ensures Sessions(plan, [], []) && Concat<Event>([]) == [] && plan.targets[..0] == []
    ensures Picked([], [], true) == [] && Picked([], [], false) == []
  {}

  lemma SessionsPush(plan: DeletePlan, sessions: seq<seq<Event>>, rows: seq<bool>, events: seq<Event>, done: bool)
    requires |rows| < |plan.targets| && Sessions(plan, sessions, rows)
    requires Justified(plan.targets[|rows|], plan.replacement, plan.defaultBefore, events, done)
    ensures Sessions(plan, sessions + [events], rows + [done])
    ensures Concat(sessions + [events]) == Concat(sessions) + events
  {
    hide Justified, Concat;
    ConcatPush(sessions, events);
  }

  lemma NothingYet(plan: DeletePlan, a: State)
    ensures Progress(plan, a, a, [], {})
  {
    WithoutNone(a.views);
  }

  lemma AcceptedDistinct(plan: DeletePlan)
    requires DeleteAccepted(plan)
    ensures DistinctTargets(plan.targets)
  {}

  /** Apply an accepted plan; any other is refused before the first request. */
  method ApplyDelete(server: Kibana, plan: DeletePlan)
    returns (report: Option<DeleteReport>, ghost rows: seq<bool>, ghost sessions: seq<seq<Event>>)
    modifies server
    ensures report.Some? <==> DeleteAccepted(plan)
    ensures report.None? ==> server.log == old(server.log) && server.state == old(server.state)
    // every target has one row, and the requests behind it justify it
    ensures report.Some? ==>
              && |rows| == |plan.targets| && Sessions(plan, sessions, rows) &&
              server.log == old(server.log) + Concat(sessions)
              && report.value == DeleteReport(Picked(plan.targets, rows, true), Picked(plan.targets, rows, false),
                |plan.targets|)
              && |report.value.deleted| + |report.value.failed| == report.value.total
    // without other writers, whichever calls fail
    ensures report.Some? && old(server.Quiet()) ==>
              && (forall id :: id in report.value.deleted ==> Settled(server.state, id))
              && OnlyPlanned(plan, old(server.state), server.state)
    // and without failures, a plan that still holds is carried out in full
    ensures report.Some? && old(server.Calm()) && Current(plan, old(server.state)) ==> report.value.failed == []
  {
    hide Holds, Justified, DeleteAccepted, Progress, Settled, TargetAccepted, Picked, Concat, Sessions;
    rows, sessions := [], [];
    ghost var start, quiet := server.state, server.Quiet();
    var ok := ValidateDeletePlan(plan);
    if !ok {
      return None, rows, sessions;
    }
    AcceptedNonEmpty(plan);
    var deleted: seq<string>, failed: seq<string>;
    match plan.replacement {
      case None =>
        ghost var removed;
        deleted, failed, rows, sessions, removed := DeleteAll(server, plan);
        if quiet {
          DirectIsPlanned(plan, start, server.state, rows, removed);
          forall id | id in deleted ensures Settled(server.state, id) {
            var i := PickedFrom(plan.targets, rows, id);
            ProgressSettled(plan, start, server.state, rows, removed, i);
          }
        }
      case Some(view) =>
        AcceptedReplacement(plan);
        var target := plan.targets[0];
        ghost var events;
        var done;
        done, events := ReplaceOne(server, target, view, plan.defaultBefore);
        rows, sessions := [done], [events];
        NoSessions(plan);
        SessionsPush(plan, [], [], events, done);
        PickedPush(plan.targets, [], done);
        assert [] + [events] == [events] && [] + [done] == [done] && plan.targets[..1] == plan.targets;
        deleted := if done then [target.source.id] else [];
        failed := if done then [] else [target.source.id];
    }
    PickedCounts(plan.targets, rows);
    report := Some(DeleteReport(deleted, failed, |plan.targets|));
  }

  lemma AcceptedNonEmpty(plan: DeletePlan)
    requires DeleteAccepted(plan)
    ensures plan.targets != []
  {}

  lemma AcceptedReplacement(plan: DeletePlan)
    requires DeleteAccepted(plan) && plan.replacement.Some?
    ensures |plan.targets| == 1 && TargetAccepted(plan.targets[0], plan.defaultBefore)
    ensures plan.replacement.value.id != plan.targets[0].source.id && !Blank(plan.replacement.value.id)
  {}

  lemma DirectIsPlanned(plan: DeletePlan, a: State, b: State, rows: seq<bool>, removed: set<string>)
    requires plan.targets != [] && plan.replacement.None?
    requires |rows| == |plan.targets| && Progress(plan, a, b, rows, removed)
    ensures OnlyPlanned(plan, a, b)
  {
    assert plan.targets[..|rows|] == plan.targets;
  }
}
