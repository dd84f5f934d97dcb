/** Deletion plans of `data_views_ops.rs`: what the planner builds from the server's answers and
    what the validator accepts. */
module DataViewDeletion {
  import opened Wrappers
  import opened Decimal
  import opened StringOrder
  import opened DataViews
  import opened DataViewPlans

  /** A saved object that refers to a data view. */
  datatype Reference = Reference(id: string, kind: string)

  datatype Summary = Summary(id: string, title: string, name: Option<string>)

  datatype Target = Target(source: Summary, references: seq<Reference>, wasDefault: bool)

  datatype DeletePlan = DeletePlan(
    preview: Preview, targets: seq<Target>, replacement: Option<Summary>, defaultBefore: Option<string>)

  // ---- references in canonical order ----

  predicate Precedes(a: Reference, b: Reference) {
    Below(a.kind, b.kind) || (a.kind == b.kind && Below(a.id, b.id))
  }

  /** Strictly increasing by kind and id, hence without repeats. */
  predicate Ordered(refs: seq<Reference>) {
    forall i, j :: 0 <= i < j < |refs| ==> Precedes(refs[i], refs[j])
  }

  /** Insert in order, dropping a repeat. */
  function Inserted(refs: seq<Reference>, x: Reference): seq<Reference> {
    if refs == [] || Precedes(x, refs[0]) then [x] + refs
    else if x == refs[0] then refs
    else [refs[0]] + Inserted(refs[1..], x)
  }

  function SortedOnce(refs: seq<Reference>): seq<Reference> {
    if refs == [] then [] else Inserted(SortedOnce(refs[..|refs| - 1]), refs[|refs| - 1])
  }

  predicate Named(refs: seq<Reference>) {
    forall i :: 0 <= i < |refs| ==> !Blank(refs[i].id) && !Blank(refs[i].kind)
  }

  /** Sorted without repeats; None when a reference has no id or kind. */
  function NormalizeReferences(refs: seq<Reference>): Option<seq<Reference>> {
    if Named(refs) then Some(SortedOnce(refs)) else None
  }

  lemma PrecedesIsOrder(a: Reference, b: Reference, c: Reference)
    ensures !Precedes(a, a)
    ensures Precedes(a, b) || a == b || Precedes(b, a)
    ensures Precedes(a, b) && Precedes(b, c) ==> Precedes(a, c)
  {
    BelowIrreflexive(a.kind);
    BelowIrreflexive(a.id);
    BelowTotal(a.kind, b.kind);
    BelowTotal(a.id, b.id);
    if Below(a.kind, b.kind) && Below(b.kind, c.kind) {
      BelowTransitive(a.kind, b.kind, c.kind);
    }
    if Below(a.id, b.id) && Below(b.id, c.id) {
      BelowTransitive(a.id, b.id, c.id);
    }
  }

  ghost predicate SameReferences(a: seq<Reference>, b: seq<Reference>) { forall x :: x in a <==> x in b }

  lemma {:induction false} InsertedOrder(refs: seq<Reference>, x: Reference)
    requires Ordered(refs)
    ensures Ordered(Inserted(refs, x)) && SameReferences(Inserted(refs, x), refs + [x])
  {
    hide Precedes;
    if refs == [] {
    } else {
      var first := refs[0];
      PrecedesIsOrder(x, first, first);
      if Precedes(x, first) {
        forall j | 0 <= j < |refs| ensures Precedes(x, refs[j]) {
          PrecedesIsOrder(x, first, refs[j]);
        }
      } else if x != first {
        InsertedOrder(refs[1..], x);
        var rest := Inserted(refs[1..], x);
        forall j | 0 <= j < |rest| ensures Precedes(first, rest[j]) {
          assert rest[j] in rest;
          assert rest[j] in refs[1..] + [x];
        }
        assert refs == [first] + refs[1..];
      }
    }
  }

  lemma {:induction false} SortedOnceOrder(refs: seq<Reference>)
    ensures Ordered(SortedOnce(refs)) && SameReferences(SortedOnce(refs), refs)
  {
    if refs == [] {
    } else {
      var k := |refs| - 1;
      SortedOnceOrder(refs[..k]);
      InsertedOrder(SortedOnce(refs[..k]), refs[k]);
      assert refs == refs[..k] + [refs[k]];
      assert SameReferences(SortedOnce(refs[..k]) + [refs[k]], refs);
    }
  }

  lemma {:induction false} OrderedDetermined(a: seq<Reference>, b: seq<Reference>)
    requires Ordered(a) && Ordered(b) && SameReferences(a, b)
    ensures a == b
  {
    hide Precedes;
    if a != [] {
      assert a[0] in a;
    }
    if b != [] {
      assert b[0] in b;
    }
    if a == [] {
    } else {
      FirstPrecedes(a, b[0]);
      FirstPrecedes(b, a[0]);
      PrecedesIsOrder(a[0], b[0], a[0]);
      OrderedRest(a);
      OrderedRest(b);
      OrderedDetermined(a[1..], b[1..]);
    }
  }

  lemma FirstPrecedes(a: seq<Reference>, x: Reference)
    requires Ordered(a) && x in a
    ensures x == a[0] || Precedes(a[0], x)
  {
    var i :| 0 <= i < |a| && a[i] == x;
    if i > 0 {
      assert Precedes(a[0], a[i]);
    }
  }

  lemma OrderedRest(a: seq<Reference>)
    requires Ordered(a) && a != []
    ensures Ordered(a[1..]) && forall x :: x in a[1..] <==> x in a && x != a[0]
  {
    hide Precedes;
    PrecedesIsOrder(a[0], a[0], a[0]);
    forall i | 1 <= i < |a| ensures a[i] != a[0] {
      assert Precedes(a[0], a[i]);
    }
    assert a == [a[0]] + a[1..];
  }

  /** Comparing normalized listings compares sets: order and repeats of the server's answer do not
      matter, any appearing or vanishing reference does. */
  lemma NormalizedEqualIff(a: seq<Reference>, b: seq<Reference>)
    requires Named(a) && Named(b)
    ensures NormalizeReferences(a) == NormalizeReferences(b) <==> SameReferences(a, b)
  {
    SortedOnceOrder(a);
    SortedOnceOrder(b);
    if SameReferences(a, b) {
      OrderedDetermined(SortedOnce(a), SortedOnce(b));
    }
  }

  /** What the validator asks of a plan's references is exactly that they came out of normalizing. */
  lemma NormalizedIff(refs: seq<Reference>)
    ensures NormalizeReferences(refs) == Some(refs) <==>
            && (forall i :: 0 <= i < |refs| ==> !Blank(refs[i].id) && !Blank(refs[i].kind))
            && forall i, j :: 0 <= i < j < |refs| ==>
                 Below(refs[i].kind, refs[j].kind) || (refs[i].kind == refs[j].kind && Below(refs[i].id, refs[j].id))
    ensures Named(refs) ==> NormalizeReferences(SortedOnce(refs)) == Some(SortedOnce(refs))
  {
    SortedOnceOrder(refs);
    var sorted := SortedOnce(refs);
    if Ordered(refs) {
      OrderedDetermined(sorted, refs);
    }
    if Named(refs) {
      forall i | 0 <= i < |sorted| ensures !Blank(sorted[i].id) && !Blank(sorted[i].kind) {
        assert sorted[i] in sorted;
      }
      SortedOnceOrder(sorted);
      OrderedDetermined(SortedOnce(sorted), sorted);
    }
  }

  // ---- selectors ----

  function WithId(views: seq<Summary>, id: string): seq<Summary> {
    if views == [] then []
    else WithId(views[..|views| - 1], id) + if views[|views| - 1].id == id then [views[|views| - 1]] else []
  }

  function WithName(views: seq<Summary>, name: string): seq<Summary> {
    if views == [] then []
    else WithName(views[..|views| - 1],
      name) + if views[|views| - 1].name == Some(name) then [views[|views| - 1]] else []
  }

  /** An id wins over a name; a name must be unique. */
  function Resolve(views: seq<Summary>, selector: string): Option<Summary> {
    var byId, byName := WithId(views, selector), WithName(views, selector);
    if byId != [] then Some(byId[0]) else if |byName| == 1 then Some(byName[0]) else None
  }

  lemma {:induction false} SelectionsAre(views: seq<Summary>, s: string)
    ensures forall v :: v in WithId(views, s) <==> v in views && v.id == s
    ensures forall v :: v in WithName(views, s) <==> v in views && v.name == Some(s)
  {
    if views == [] {
    } else {
      SelectionsAre(views[..|views| - 1], s);
      assert views == views[..|views| - 1] + [views[|views| - 1]];
    }
  }

  /** Entry `i` is the first one with this id. */
  predicate FirstWithId(views: seq<Summary>, i: int, id: string) {
    && 0 <= i < |views| && views[i].id == id && forall j :: 0 <= j < i ==> views[j].id != id
  }

  /** Entry `i` is the only one with this name. */
  predicate OnlyNamed(views: seq<Summary>, i: int, name: string) {
    && 0 <= i < |views| && views[i].name == Some(name)
    && forall j :: 0 <= j < |views| && views[j].name == Some(name) ==> j == i
  }

  lemma {:induction false} FirstWithIdIs(views: seq<Summary>, id: string)
    ensures WithId(views, id) == [] <==> forall i :: 0 <= i < |views| ==> views[i].id != id
    ensures WithId(views, id) != [] ==> exists i :: FirstWithId(views, i, id) && WithId(views, id)[0] == views[i]
  {
    if views == [] {
    } else {
      var k := |views| - 1;
      var before := views[..k];
      FirstWithIdIs(before, id);
      assert forall i :: 0 <= i < k ==> before[i] == views[i];
      if WithId(before, id) != [] {
        var i :| FirstWithId(before, i, id) && WithId(before, id)[0] == before[i];
        assert FirstWithId(views, i, id);
      } else if views[k].id == id {
        assert FirstWithId(views, k, id);
      }
    }
  }

  lemma {:induction false} OnlyNamedIs(views: seq<Summary>, name: string)
    ensures WithName(views, name) == [] <==> forall i :: 0 <= i < |views| ==> views[i].name != Some(name)
    ensures |WithName(views, name)| == 1 <==> exists i :: OnlyNamed(views, i, name)
    ensures forall i :: OnlyNamed(views, i, name) ==> WithName(views, name) == [views[i]]
  {
    if views == [] {
    } else {
      var k := |views| - 1;
      var before := views[..k];
      OnlyNamedIs(before, name);
      assert forall i :: 0 <= i < k ==> before[i] == views[i];
      forall i | OnlyNamed(views, i, name) ensures WithName(views, name) == [views[i]] {
        if i < k {
          assert OnlyNamed(before, i, name) && views[k].name != Some(name);
        }
      }
      if |WithName(views, name)| == 1 {
        if views[k].name == Some(name) {
          assert OnlyNamed(views, k, name);
        } else {
          var i :| OnlyNamed(before, i, name);
          assert OnlyNamed(views, i, name);
        }
      }
    }
  }

  /** An id wins, the first listed entry that has it; else the name must be carried by one entry. */
  lemma ResolveFinds(views: seq<Summary>, selector: string)
    ensures forall i :: FirstWithId(views, i, selector) ==> Resolve(views, selector) == Some(views[i])
    ensures (forall j :: 0 <= j < |views| ==> views[j].id != selector) ==>
              && (forall i :: OnlyNamed(views, i, selector) ==> Resolve(views, selector) == Some(views[i]))
              && (Resolve(views, selector).Some? ==> exists i :: OnlyNamed(views, i, selector))
    ensures Resolve(views, selector).Some? ==> Resolve(views, selector).value in views
  {
    hide WithId, WithName;
    FirstWithIdIs(views, selector);
    OnlyNamedIs(views, selector);
    forall i | FirstWithId(views, i, selector) ensures WithId(views, selector)[0] == views[i] {
      var k :| FirstWithId(views, k, selector) && WithId(views, selector)[0] == views[k];
      assert i == k;
    }
    if WithId(views, selector) != [] {
      var k :| FirstWithId(views, k, selector) && WithId(views, selector)[0] == views[k];
    } else if |WithName(views, selector)| == 1 {
      var i :| OnlyNamed(views, i, selector);
    }
  }

  predicate HasId(views: seq<Summary>, id: string) { exists i :: 0 <= i < |views| && views[i].id == id }

  /** The views the selectors name, each once, in the order of the selectors. */
  function Sources(views: seq<Summary>, selectors: seq<string>): Option<seq<Summary>> {
    if selectors == [] then Some([])
    else
      var before := Sources(views, selectors[..|selectors| - 1]);
      var last := Resolve(views, selectors[|selectors| - 1]);
      if before.None? || last.None? then None
      else Some(before.value + if HasId(before.value, last.value.id) then [] else [last.value])
  }

  predicate DistinctSources(views: seq<Summary>) {
    forall i, j :: 0 <= i < j < |views| ==> views[i].id != views[j].id
  }

  lemma {:induction false} SourcesDistinct(views: seq<Summary>, selectors: seq<string>)
    requires Sources(views, selectors).Some?
    ensures DistinctSources(Sources(views, selectors).value)
    ensures selectors != [] ==> Sources(views, selectors).value != []
  {
    if selectors == [] {
    } else {
      SourcesDistinct(views, selectors[..|selectors| - 1]);
    }
  }

  /** `v` enters by selector `i`: no selector before names a view with its id. */
  predicate Enters(views: seq<Summary>, selectors: seq<string>, i: int, v: Summary) {
    && 0 <= i < |selectors| && Resolve(views, selectors[i]) == Some(v)
    && forall h :: 0 <= h < i && Resolve(views, selectors[h]).Some? ==> Resolve(views, selectors[h]).value.id != v.id
  }

  predicate Resolved(views: seq<Summary>, selectors: seq<string>) {
    forall i :: 0 <= i < |selectors| ==> Resolve(views, selectors[i]).Some?
  }

  predicate AllSelected(views: seq<Summary>, selectors: seq<string>, sources: seq<Summary>)
    requires Resolved(views, selectors)
  {
    forall i :: 0 <= i < |selectors| ==> HasId(sources, Resolve(views, selectors[i]).value.id)
  }

  ghost predicate Entered(views: seq<Summary>, selectors: seq<string>, v: Summary) {
    exists i :: Enters(views, selectors, i, v)
  }

  ghost predicate EntersFirst(views: seq<Summary>, selectors: seq<string>, u: Summary, v: Summary) {
    forall a, b :: Enters(views, selectors, a, u) && Enters(views, selectors, b, v) ==> a < b
  }

  /** Every source enters by a selector, in the order of the selectors. */
  ghost predicate InOrder(views: seq<Summary>, selectors: seq<string>, sources: seq<Summary>) {
    && (forall k :: 0 <= k < |sources| ==> Entered(views, selectors, sources[k]))
    && forall j, k :: 0 <= j < k < |sources| ==> EntersFirst(views, selectors, sources[j], sources[k])
  }

  /** Every selected view is a source, in the order of first appearance, and nothing else is; one
      selector that names no view refuses all. */
  lemma {:induction false} SourcesAre(views: seq<Summary>, selectors: seq<string>)
    ensures Sources(views, selectors).Some? <==> Resolved(views, selectors)
    ensures Sources(views, selectors).Some? ==>
              var sources := Sources(views, selectors).value;
              AllSelected(views, selectors, sources) && InOrder(views, selectors, sources)
  {
    hide Resolve, AllSelected, InOrder, HasId;
    if selectors == [] {
      assert AllSelected(views, selectors, []) && InOrder(views, selectors, []) by {
        NothingSelected(views);
      }
    } else {
      var n := |selectors| - 1;
      var before := selectors[..n];
      SourcesAre(views, before);
      assert forall i :: 0 <= i < n ==> before[i] == selectors[i];
      if Sources(views, selectors).Some? {
        var earlier := Sources(views, before).value;
        SelectedPush(views, selectors, earlier);
        InOrderPush(views, selectors, earlier);
        assert earlier + [] == earlier;
      }
    }
  }

  lemma NothingSelected(views: seq<Summary>)
    ensures AllSelected(views, [], []) && InOrder(views, [], [])
  {}

  lemma SelectedPush(views: seq<Summary>, selectors: seq<string>, earlier: seq<Summary>)
    requires selectors != [] && Resolved(views, selectors)
    requires Resolved(views, selectors[..|selectors| - 1]) && AllSelected(views, selectors[..|selectors| - 1], earlier)
    ensures var last := Resolve(views, selectors[|selectors| - 1]).value;
            AllSelected(views, selectors, if HasId(earlier, last.id) then earlier else earlier + [last])
  {
    hide Resolve;
    var n := |selectors| - 1;
    var last := Resolve(views, selectors[n]).value;
    var sources := if HasId(earlier, last.id) then earlier else earlier + [last];
    forall i | 0 <= i < |selectors| ensures HasId(sources, Resolve(views, selectors[i]).value.id) {
      if i < n {
        assert selectors[..n][i] == selectors[i];
        var k :| 0 <= k < |earlier| && earlier[k].id == Resolve(views, selectors[i]).value.id;
        assert sources[k] == earlier[k];
      } else if !HasId(earlier, last.id) {
        assert sources[|earlier|] == last;
      }
    }
  }

  /** Whether a view enters by a selector is settled by the selectors up to it. */
  lemma EntersBefore(views: seq<Summary>, selectors: seq<string>, n: nat, i: int, v: Summary)
    requires n <= |selectors|
    ensures Enters(views, selectors[..n], i, v) <==> i < n && Enters(views, selectors, i, v)
  {
    hide Resolve;
    var before := selectors[..n];
    assert forall h :: 0 <= h < n ==> before[h] == selectors[h];
    if Enters(views, before, i, v) {
      forall h | 0 <= h < i && Resolve(views, selectors[h]).Some?
        ensures Resolve(views, selectors[h]).value.id != v.id
      {
        assert before[h] == selectors[h];
      }
    }
    if i < n && Enters(views, selectors, i, v) {
      assert before[i] == selectors[i];
      forall h | 0 <= h < i && Resolve(views, before[h]).Some? ensures Resolve(views, before[h]).value.id != v.id {
        assert before[h] == selectors[h];
      }
    }
  }

  lemma EnteredStill(views: seq<Summary>, selectors: seq<string>, u: Summary, v: Summary)
    requires selectors != [] && Entered(views, selectors[..|selectors| - 1], u)
    ensures Entered(views, selectors, u)
    ensures Enters(views, selectors, |selectors| - 1, v) ==> EntersFirst(views, selectors, u, v)
    ensures Entered(views, selectors[..|selectors| - 1], v) ==>
              EntersFirst(views, selectors[..|selectors| - 1], u, v) ==> EntersFirst(views, selectors, u, v)
  {
    var n := |selectors| - 1;
    var before := selectors[..n];
    var i :| Enters(views, before, i, u);
    EntersBefore(views, selectors, n, i, u);
    hide Enters;
    forall a, b | Enters(views, selectors, a, u) && Enters(views, selectors, b, v)
      ensures Enters(views, selectors, n, v) ==> a < b
      ensures Entered(views, before, v) && EntersFirst(views, before, u, v) ==> a < b
    {
      EntersOnce(views, selectors, a, i, u);
      if Enters(views, selectors, n, v) {
        EntersOnce(views, selectors, b, n, v);
      }
      if h :| Enters(views, before, h, v) {
        EntersBefore(views, selectors, n, h, v);
        EntersOnce(views, selectors, b, h, v);
      }
    }
  }

  lemma InOrderPush(views: seq<Summary>, selectors: seq<string>, earlier: seq<Summary>)
    requires selectors != [] && Resolved(views, selectors) && InOrder(views, selectors[..|selectors| - 1], earlier)
    requires Resolved(views, selectors[..|selectors| - 1]) && AllSelected(views, selectors[..|selectors| - 1], earlier)
    ensures var last := Resolve(views, selectors[|selectors| - 1]).value;
            InOrder(views, selectors, if HasId(earlier, last.id) then earlier else earlier + [last])
  {
    hide Resolve;
    var n := |selectors| - 1;
    var last := Resolve(views, selectors[n]).value;
    var sources := if HasId(earlier, last.id) then earlier else earlier + [last];
    if !HasId(earlier, last.id) {
      LastEnters(views, selectors, earlier);
      assert Entered(views, selectors, last);
    }
    hide AllSelected, Enters, HasId, Entered, EntersFirst;
    forall k | 0 <= k < |sources| ensures Entered(views, selectors, sources[k]) {
      if k < |earlier| {
        EnteredStill(views, selectors, earlier[k], last);
      }
    }
    forall j, k | 0 <= j < k < |sources| ensures EntersFirst(views, selectors, sources[j], sources[k]) {
      EnteredStill(views, selectors, sources[j], sources[k]);
    }
  }

  lemma EntersOnce(views: seq<Summary>, selectors: seq<string>, i: int, j: int, v: Summary)
    requires Enters(views, selectors, i, v) && Enters(views, selectors, j, v)
    ensures i == j
  {
    hide Resolve;
  }

  lemma LastEnters(views: seq<Summary>, selectors: seq<string>, earlier: seq<Summary>)
    requires selectors != [] && Resolved(views, selectors)
    requires Resolved(views, selectors[..|selectors| - 1]) && AllSelected(views, selectors[..|selectors| - 1], earlier)
    requires !HasId(earlier, Resolve(views, selectors[|selectors| - 1]).value.id)
    ensures Enters(views, selectors, |selectors| - 1, Resolve(views, selectors[|selectors| - 1]).value)
  {
    hide Resolve, HasId;
    var n := |selectors| - 1;
    forall h | 0 <= h < n
      ensures Resolve(views, selectors[h]).value.id != Resolve(views, selectors[n]).value.id
    {
      assert selectors[..n][h] == selectors[h];
    }
  }

  // ---- plans ----

  function ReferenceNames(id: string, refs: seq<Reference>): seq<string> {
    seq(|refs|, i requires 0 <= i < |refs| => id + "  " + refs[i].kind + "/" + refs[i].id)
  }

  function TargetDetails(target: Target, replacement: Option<Summary>): seq<string> {
    var id := target.source.id;
    ReferenceNames(id, target.references) +
    if replacement.None? then [id + "  direct delete"]
    else if target.wasDefault then [id + "  default -> " + replacement.value.id]
    else []
  }

  function DeleteDetails(targets: seq<Target>, replacement: Option<Summary>): seq<string> {
    if targets == [] then [] else TargetDetails(targets[0], replacement) + DeleteDetails(targets[1..], replacement)
  }

  function DeletePreview(targets: seq<Target>, replacement: Option<Summary>): Preview
    requires targets != []
  {
    Preview(
      match replacement
      case Some(view) => "Replace references and delete " + targets[0].source.id + " with " + view.id
      case None => "Delete " + Digits(|targets|) + " data view(s)",
      DeleteDetails(targets, replacement),
      seq(|targets|, i requires 0 <= i < |targets| => targets[i].source.id))
  }

  /** What the guard shows: the action with its numbers and ids, and one target per deleted view. */
  lemma DeletePreviewIs(targets: seq<Target>, replacement: Option<Summary>)
    requires targets != []
    ensures var preview := DeletePreview(targets, replacement);
            && |preview.targets| == |targets|
            && (forall i :: 0 <= i < |targets| ==> preview.targets[i] == targets[i].source.id)
            && preview.action == if replacement.None? then "Delete " + Digits(|targets|) + " data view(s)"
                                 else "Replace references and delete " + targets[0].source.id + " with "
                                      + replacement.value.id
  {
    hide Digits;
  }

  predicate DistinctTargets(targets: seq<Target>) {
    forall i, j :: 0 <= i < j < |targets| ==> targets[i].source.id != targets[j].source.id
  }

  /** A direct deletion may orphan nothing: no reference is left and the default is not hit. */
  predicate Harmless(targets: seq<Target>) {
    forall i :: 0 <= i < |targets| ==> !targets[i].wasDefault && targets[i].references == []
  }

  predicate TargetAccepted(target: Target, defaultBefore: Option<string>) {
    && !Blank(target.source.id) && !Blank(target.source.title)
    && (target.wasDefault <==> defaultBefore == Some(target.source.id))
    && NormalizeReferences(target.references) == Some(target.references)
  }

  /** What a plan must satisfy before anything is sent. */
  predicate DeleteAccepted(plan: DeletePlan) {
    && plan.targets != []
    && (plan.defaultBefore.Some? ==> !Blank(plan.defaultBefore.value))
    && (forall i :: 0 <= i < |plan.targets| ==> TargetAccepted(plan.targets[i], plan.defaultBefore))
    && DistinctTargets(plan.targets)
    && (match plan.replacement
        case Some(view) =>
          && |plan.targets| == 1 && !Blank(view.id) && !Blank(view.title) && view.id != plan.targets[0].source.id
        case None => Harmless(plan.targets))
    && plan.preview == DeletePreview(plan.targets, plan.replacement)
  }

  method ValidateDeletePlan(plan: DeletePlan) returns (ok: bool)
    ensures ok <==> DeleteAccepted(plan)
  {
    hide NormalizeReferences;
    if plan.targets == [] || (plan.defaultBefore.Some? && Blank(plan.defaultBefore.value)) {
      return false;
    }
    var ids: set<string> := {};
    for k := 0 to |plan.targets|
      invariant forall id :: id in ids <==> exists i :: 0 <= i < k && plan.targets[i].source.id == id
      invariant forall i :: 0 <= i < k ==> TargetAccepted(plan.targets[i], plan.defaultBefore)
      invariant DistinctTargets(plan.targets[..k])
    {
      var target := plan.targets[k];
      if Blank(target.source.id) || Blank(target.source.title) {
        return false;
      }
      if target.source.id in ids {
        return false;
      }
      ids := ids + {target.source.id};
      if target.wasDefault != (plan.defaultBefore == Some(target.source.id)) {
        return false;
      }
      if NormalizeReferences(target.references) != Some(target.references) {
        return false;
      }
      assert plan.targets[..k + 1] == plan.targets[..k] + [target];
    }
    assert plan.targets[..|plan.targets|] == plan.targets;
    match plan.replacement {
      case Some(view) =>
        if |plan.targets| != 1 || Blank(view.id) || Blank(view.title) || view.id == plan.targets[0].source.id {
          return false;
        }
      case None =>
        if !Harmless(plan.targets) {
          return false;
        }
    }
    return plan.preview == DeletePreview(plan.targets, plan.replacement);
  }

  /** The targets, given one listing of references per source; None when one is malformed. */
  function Targets(sources: seq<Summary>, listings: seq<seq<Reference>>, dflt: Option<string>): (r: Option<seq<Target>>)
    requires |listings| == |sources|
    ensures r.Some? ==> |r.value| == |sources|
  {
    if sources == [] then Some([])
    else
      var k := |sources| - 1;
      var before := Targets(sources[..k], listings[..k], dflt);
      var refs := NormalizeReferences(listings[k]);
      if before.None? || refs.None? then None
      else Some(before.value + [Target(sources[k], refs.value, dflt == Some(sources[k].id))])
  }

  /** The checks on what the selectors name, before any reference is read. */
  function Selected(views: seq<Summary>, selectors: seq<string>, replaceWith: Option<string>):
    Option<(seq<Summary>, Option<Summary>)>
  {
    var sources := Sources(views, selectors);
    var replacement := if replaceWith.Some? then Resolve(views, replaceWith.value) else None;
    if selectors == [] || sources.None? || (replaceWith.Some? && replacement.None?) then None
    else if replacement.Some? && (|sources.value| != 1 || HasId(sources.value, replacement.value.id)) then None
    else Some((sources.value, replacement))
  }

  /** The plan made from one set of answers: the listed views, the default and the references of
      each source. */
  function PlanFrom(
    views: seq<Summary>, selectors: seq<string>, replaceWith: Option<string>, dflt: Option<string>,
    listings: seq<seq<Reference>>): Option<DeletePlan>
  {
    var selected := Selected(views, selectors, replaceWith);
    if selected.None? || |listings| != |selected.value.0| then None
    else
      var (sources, replacement) := selected.value;
      var targets := Targets(sources, listings, dflt);
      if targets.None? || targets.value == [] || (replacement.None? && !Harmless(targets.value)) then None
      else Some(DeletePlan(DeletePreview(targets.value, replacement), targets.value, replacement, dflt))
  }

  lemma {:induction false} TargetsAre(sources: seq<Summary>, listings: seq<seq<Reference>>, dflt: Option<string>)
    requires |listings| == |sources|
    ensures Targets(sources, listings, dflt).Some? <==> forall i :: 0 <= i < |listings| ==> Named(listings[i])
    ensures var targets := Targets(sources, listings, dflt);
            targets.Some? ==> forall i :: 0 <= i < |sources| ==>
              targets.value[i] == Target(sources[i], SortedOnce(listings[i]), dflt == Some(sources[i].id))
  {
    hide Named;
    if sources == [] {
    } else {
      var k := |sources| - 1;
      TargetsAre(sources[..k], listings[..k], dflt);
      assert forall i :: 0 <= i < k ==> listings[..k][i] == listings[i];
    }
  }

  /** The selectors pick the sources; a replacement must be one view, for one source, and another. */
  lemma SelectedIff(views: seq<Summary>, selectors: seq<string>, replaceWith: Option<string>)
    ensures Selected(views, selectors, replaceWith).Some? <==>
            && selectors != [] && Resolved(views, selectors)
            && (replaceWith.Some? ==>
                  && Resolve(views, replaceWith.value).Some?
                  && forall i :: 0 <= i < |selectors| ==>
                       Resolve(views, selectors[i]).value.id == Resolve(views, selectors[0]).value.id
                       != Resolve(views, replaceWith.value).value.id)
    ensures Selected(views, selectors, replaceWith).Some? ==>
              && Sources(views, selectors).Some?
              && Selected(views, selectors, replaceWith).value ==
                 (Sources(views, selectors).value,
                  if replaceWith.Some? then Resolve(views, replaceWith.value) else None)
  {
    hide Resolve, HasId;
    SourcesAre(views, selectors);
    if selectors != [] && Resolved(views, selectors) && replaceWith.Some? && Resolve(views, replaceWith.value).Some? {
      SourcesDistinct(views, selectors);
      SingleSource(views, selectors, Resolve(views, replaceWith.value).value.id);
    }
  }

  lemma SingleSource(views: seq<Summary>, selectors: seq<string>, other: string)
    requires selectors != [] && Resolved(views, selectors) && Sources(views, selectors).Some?
    requires Sources(views, selectors).value != [] && DistinctSources(Sources(views, selectors).value)
    ensures var sources, first := Sources(views, selectors).value, Resolve(views, selectors[0]).value.id;
            && ((|sources| == 1) <==>
                forall i :: 0 <= i < |selectors| ==> Resolve(views, selectors[i]).value.id == first)
            && (|sources| == 1 ==> (HasId(sources, other) <==> first == other))
  {
    hide Resolve, Sources;
    var sources, first := Sources(views, selectors).value, Resolve(views, selectors[0]).value.id;
    SourcesAre(views, selectors);
    assert HasId(sources, first);
    if |sources| == 1 {
      forall i | 0 <= i < |selectors| ensures Resolve(views, selectors[i]).value.id == first {
        assert HasId(sources, Resolve(views, selectors[i]).value.id);
      }
    } else if forall i :: 0 <= i < |selectors| ==> Resolve(views, selectors[i]).value.id == first {
      assert Entered(views, selectors, sources[0]) && Entered(views, selectors, sources[1]);
      assert sources[0].id == first && sources[1].id == first;
    }
  }

  /** A plan is refused only for a nameless reference or, when nothing replaces the sources, for a
      reference or a default left behind; its targets are the sources with their references. */
  lemma PlanFromIff(
    views: seq<Summary>, selectors: seq<string>, replaceWith: Option<string>, dflt: Option<string>,
    listings: seq<seq<Reference>>)
    requires Selected(views, selectors, replaceWith).Some?
    requires |listings| == |Selected(views, selectors, replaceWith).value.0|
    ensures var (sources, replacement) := Selected(views, selectors, replaceWith).value;
            var plan := PlanFrom(views, selectors, replaceWith, dflt, listings);
            && (plan.Some? <==> forall i :: 0 <= i < |sources| ==>
                  && (forall r :: r in listings[i] ==> !Blank(r.id) && !Blank(r.kind))
                  && (replacement.None? ==> listings[i] == [] && dflt != Some(sources[i].id)))
            && (plan.Some? ==>
                  && plan.value.replacement == replacement && plan.value.defaultBefore == dflt
                  && |plan.value.targets| == |sources|
                  && forall i :: 0 <= i < |sources| ==>
                       plan.value.targets[i] ==
                       Target(sources[i], SortedOnce(listings[i]), dflt == Some(sources[i].id)))
  {
    hide Resolve, Sources, HasId, SortedOnce, Targets, DeletePreview, Blank;
    var (sources, replacement) := Selected(views, selectors, replaceWith).value;
    TargetsAre(sources, listings, dflt);
    SelectedIff(views, selectors, replaceWith);
    SourcesDistinct(views, selectors);
    forall i | 0 <= i < |sources|
      ensures SortedOnce(listings[i]) == [] <==> listings[i] == []
      ensures Named(listings[i]) <==> forall r :: r in listings[i] ==> !Blank(r.id) && !Blank(r.kind)
    {
      SortedOnceEmpty(listings[i]);
    }
  }

  predicate HasTarget(targets: seq<Target>, id: string) {
    exists k :: 0 <= k < |targets| && targets[k].source.id == id
  }

  predicate NamedBy(views: seq<Summary>, selectors: seq<string>, view: Summary) {
    exists i :: 0 <= i < |selectors| && Resolve(views, selectors[i]) == Some(view)
  }

  /** A plan has exactly one target for every view that a selector names. */
  predicate CoversSelectors(views: seq<Summary>, selectors: seq<string>, plan: DeletePlan) {
    && Resolved(views, selectors)
    && (forall i :: 0 <= i < |selectors| ==> HasTarget(plan.targets, Resolve(views, selectors[i]).value.id))
    && (forall k :: 0 <= k < |plan.targets| ==> NamedBy(views, selectors, plan.targets[k].source))
    && DistinctTargets(plan.targets)
  }

  lemma PlanCoversSelectors(
    views: seq<Summary>, selectors: seq<string>, replaceWith: Option<string>, dflt: Option<string>,
    listings: seq<seq<Reference>>)
    requires PlanFrom(views, selectors, replaceWith, dflt, listings).Some?
    ensures CoversSelectors(views, selectors, PlanFrom(views, selectors, replaceWith, dflt, listings).value)
  {
    PlanParts(views, selectors, replaceWith, dflt, listings);
    hide *;
    var plan, sources := PlanFrom(views, selectors, replaceWith, dflt, listings).value, Sources(views, selectors).value;
    SourcesAre(views, selectors);
    SourcesDistinct(views, selectors);
    TargetSources(sources, listings, dflt);
    forall i | 0 <= i < |selectors| ensures HasTarget(plan.targets, Resolve(views, selectors[i]).value.id) {
      SelectedHasTarget(views, selectors, sources, plan.targets, i);
    }
    forall k | 0 <= k < |plan.targets| ensures NamedBy(views, selectors, plan.targets[k].source) {
      SourceIsNamed(views, selectors, sources, k);
    }
    CoversParts(views, selectors, plan);
  }

  lemma CoversParts(views: seq<Summary>, selectors: seq<string>, plan: DeletePlan)
    requires Resolved(views, selectors) && DistinctTargets(plan.targets)
    requires forall i {:trigger Resolve(views, selectors[i])} :: 0 <= i < |selectors| ==>
               Resolve(views, selectors[i]).Some? &&
               HasTarget(plan.targets, Resolve(views, selectors[i]).value.id)
    requires forall k :: 0 <= k < |plan.targets| ==> NamedBy(views, selectors, plan.targets[k].source)
    ensures CoversSelectors(views, selectors, plan)
  {
    hide Resolve, HasTarget, NamedBy, DistinctTargets;
  }

  lemma TargetSources(sources: seq<Summary>, listings: seq<seq<Reference>>, dflt: Option<string>)
    requires |listings| == |sources| && Targets(sources, listings, dflt).Some? && DistinctSources(sources)
    ensures var targets := Targets(sources, listings, dflt).value;
            DistinctTargets(targets) && forall k :: 0 <= k < |sources| ==> targets[k].source == sources[k]
  {
    hide Targets, SortedOnce;
    TargetsAre(sources, listings, dflt);
  }

  lemma SelectedHasTarget(
    views: seq<Summary>, selectors: seq<string>, sources: seq<Summary>, targets: seq<Target>, i: nat)
    requires Resolved(views, selectors) && AllSelected(views, selectors, sources) && i < |selectors|
    requires |targets| == |sources| && forall k :: 0 <= k < |sources| ==> targets[k].source == sources[k]
    ensures HasTarget(targets, Resolve(views, selectors[i]).value.id)
  {
    hide Resolve;
    var id := Resolve(views, selectors[i]).value.id;
    assert HasId(sources, id);
    var k :| 0 <= k < |sources| && sources[k].id == id;
    assert targets[k].source.id == id;
  }

  lemma SourceIsNamed(views: seq<Summary>, selectors: seq<string>, sources: seq<Summary>, k: nat)
    requires InOrder(views, selectors, sources) && k < |sources|
    ensures NamedBy(views, selectors, sources[k])
  {
    hide Resolve;
    assert Entered(views, selectors, sources[k]);
  }

  lemma SortedOnceEmpty(refs: seq<Reference>)
    ensures SortedOnce(refs) == [] <==> refs == []
  {
    SortedOnceOrder(refs);
    if refs != [] {
      assert refs[0] in SortedOnce(refs);
    }
  }

  /** One line of a deletion preview, about this target. */
  predicate PreviewLine(line: string, target: Target, replacement: Option<Summary>) {
    || (exists r :: r in target.references && line == target.source.id + "  " + r.kind + "/" + r.id)
    || (replacement.None? && line == target.source.id + "  direct delete")
    || (replacement.Some? && target.wasDefault && line == target.source.id + "  default -> " + replacement.value.id)
  }

  /** The preview names every reference that would move, every deletion and the moving default. */
  lemma {:induction false} DeleteDetailsAre(targets: seq<Target>, replacement: Option<Summary>, line: string)
    ensures line in DeleteDetails(targets, replacement) <==>
            exists i :: 0 <= i < |targets| && PreviewLine(line, targets[i], replacement)
  {
    if targets == [] {
    } else {
      DeleteDetailsAre(targets[1..], replacement, line);
      TargetDetailsAre(targets[0], replacement, line);
      assert targets == [targets[0]] + targets[1..];
      hide PreviewLine, TargetDetails;
      if i :| 0 <= i < |targets| && PreviewLine(line, targets[i], replacement) {
        if i > 0 {
          assert PreviewLine(line, targets[1..][i - 1], replacement);
        }
      }
    }
  }

  lemma TargetDetailsAre(target: Target, replacement: Option<Summary>, line: string)
    ensures line in TargetDetails(target, replacement) <==> PreviewLine(line, target, replacement)
  {
    var id, refs := target.source.id, target.references;
    var names := ReferenceNames(id, refs);
    if r :| r in refs && line == id + "  " + r.kind + "/" + r.id {
      var i :| 0 <= i < |refs| && refs[i] == r;
      assert names[i] == line;
    }
    if line in names {
      var i :| 0 <= i < |names| && names[i] == line;
      assert refs[i] in refs;
    }
  }

  predicate NamedView(view: Summary) { !Blank(view.id) && !Blank(view.title) }

  /** The one thing the planner leaves unchecked: the server's own texts may be blank. */
  predicate Identified(sources: seq<Summary>, replacement: Option<Summary>, dflt: Option<string>) {
    && (dflt.Some? ==> !Blank(dflt.value))
    && (forall i :: 0 <= i < |sources| ==> NamedView(sources[i]))
    && (replacement.Some? ==> NamedView(replacement.value))
  }

  lemma PlanParts(
    views: seq<Summary>, selectors: seq<string>, replaceWith: Option<string>, dflt: Option<string>,
    listings: seq<seq<Reference>>)
    requires PlanFrom(views, selectors, replaceWith, dflt, listings).Some?
    ensures selectors != [] && Sources(views, selectors).Some? && |listings| == |Sources(views, selectors).value|
    ensures var plan, sources := PlanFrom(views, selectors, replaceWith, dflt, listings).value, Sources(views,
      selectors).value;
            && Targets(sources, listings, dflt) == Some(plan.targets) && plan.targets != []
            && plan.defaultBefore == dflt && plan.preview == DeletePreview(plan.targets, plan.replacement)
            && Selected(views, selectors, replaceWith) == Some((sources, plan.replacement))
            && (plan.replacement.None? ==> Harmless(plan.targets))
            && (plan.replacement.Some? ==> |sources| == 1 && !HasId(sources, plan.replacement.value.id))
  {
    hide Sources, Targets, Resolve, Harmless, DeletePreview, HasId;
  }

  /** Planner and validator agree exactly where the selected views and the default have names. */
  lemma PlannedAcceptedIff(
    views: seq<Summary>, selectors: seq<string>, replaceWith: Option<string>, dflt: Option<string>,
    listings: seq<seq<Reference>>)
    requires PlanFrom(views, selectors, replaceWith, dflt, listings).Some?
    ensures Selected(views, selectors, replaceWith).Some?
    ensures var plan := PlanFrom(views, selectors, replaceWith, dflt, listings).value;
            var (sources, replacement) := Selected(views, selectors, replaceWith).value;
            DeleteAccepted(plan) <==> Identified(sources, replacement, dflt)
  {
    hide PlanFrom, Selected, Sources, Targets, Named, NormalizeReferences, SortedOnce, DeletePreview, Harmless, Blank;
    var plan := PlanFrom(views, selectors, replaceWith, dflt, listings).value;
    PlanParts(views, selectors, replaceWith, dflt, listings);
    var sources := Sources(views, selectors).value;
    SourcesDistinct(views, selectors);
    TargetsAre(sources, listings, dflt);
    assert DistinctTargets(plan.targets);
    forall i | 0 <= i < |plan.targets|
      ensures plan.targets[i].source == sources[i]
      ensures TargetAccepted(plan.targets[i], dflt) <==> NamedView(sources[i])
    {
      NormalizedAgain(listings[i]);
    }
    if plan.replacement.Some? {
      assert sources[0].id != plan.replacement.value.id;
    }
  }

  lemma NormalizedAgain(refs: seq<Reference>)
    requires Named(refs)
    ensures NormalizeReferences(SortedOnce(refs)) == Some(SortedOnce(refs))
  {
    NormalizedIff(refs);
  }

  /** A listed view with a blank title is planned for deletion and then refused. */
  lemma BlankTitlePlannedAndRefused()
    ensures var plan := PlanFrom([Summary("a", " ", None)], ["a"], None, None, [[]]);
            plan.Some? && !DeleteAccepted(plan.value)
  {
    var view := Summary("a", " ", None);
    assert view.title[0] == ' ' && Blank(view.title);
    assert [view][..0] == [] && ["a"][..0] == [];
    assert WithId([view], "a") == [view];
    assert WithId([view][..0], "a") == [];
    assert Resolve([view], "a") == Some(view);
    assert Sources([view], ["a"]) == Some([view]);
    assert Selected([view], ["a"], None) == Some(([view], None));
    var listings: seq<seq<Reference>> := [[]];
    TargetsAre([view], listings, None);
    assert SortedOnce(listings[0]) == [];
    var targets := Targets([view], listings, None);
    assert forall i :: 0 <= i < |listings| ==> Named(listings[i]);
    assert targets.value[0] == Target(view, [], false);
    assert targets.value == [Target(view, [], false)];
  }
}
