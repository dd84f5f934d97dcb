/** Field-level drift between local and remote rules, `diff.rs`. */
module Drift {
  import opened Wrappers
  import opened StringOrder
  import opened JsonTree
  import opened KeyOrder
  import opened RuleForms

  datatype FieldChange = FieldChange(field: string, before: Json, after: Json)

  datatype Change =
    | Added(ruleId: string, name: string)
    | Modified(ruleId: string, name: string, fields: seq<FieldChange>)
    | Unchanged(ruleId: string)
    | RemoteOnly(ruleId: string, name: string)

  function TextField(entries: Entries, key: string): string {
    match Get(entries, key)
    case Some(Str(text)) => text
    case _ => ""
  }

  /** The string under the key, or nothing when there is no string. */
  predicate IsText(entries: Entries, key: string, text: string) {
    match Get(entries, key)
    case Some(Str(found)) => text == found
    case _ => text == ""
  }

  predicate ReadableId(entries: Entries) {
    Get(entries, "rule_id").Some? && Get(entries, "rule_id").value.Str?
  }

  function RuleId(entries: Entries): string { TextField(entries, "rule_id") }

  /** Every rule can be matched, and by its own id only. */
  predicate Indexable(rules: seq<Entries>) {
    && (forall i :: 0 <= i < |rules| ==> ReadableId(rules[i]))
    && forall i, j :: 0 <= i < j < |rules| ==> RuleId(rules[i]) != RuleId(rules[j])
  }

  function OrNull(entries: Entries, key: string): Json {
    if Get(entries, key).Some? then Get(entries, key).value else Null
  }

  function Keys(entries: Entries): set<string> { set i | 0 <= i < |entries| :: entries[i].0 }

  function FieldOf(change: FieldChange): string { change.field }

  /** The key is on both sides with different values, or on one side only and not null. */
  predicate Differs(before: Entries, after: Entries, key: string) {
    match (Get(before, key), Get(after, key))
    case (Some(b), Some(a)) => !Same(b, a)
    case (Some(b), None) => b != Null
    case (None, Some(a)) => a != Null
    case (None, None) => false
  }

  /** The value under the key, or null when there is none. */
  predicate Shows(entries: Entries, key: string, value: Json) {
    match Get(entries, key)
    case Some(found) => value == found
    case None => value == Null
  }

  /** Both sides are compared and reported through `OrNull`. */
  lemma OrNullShows(a: Entries, b: Entries, key: string)
    ensures Shows(a, key, OrNull(a, key))
    ensures Differs(a, b, key) <==> !Same(OrNull(a, key), OrNull(b, key))
  {}

  /** Exactly the fields that differ, with both values, in order of their names. */
  ghost predicate IsFieldChanges(before: Entries, after: Entries, changes: seq<FieldChange>) {
    && AscendingBy(changes, FieldOf)
    && (forall i :: 0 <= i < |changes| ==>
          && Shows(before, changes[i].field, changes[i].before)
          && Shows(after, changes[i].field, changes[i].after)
          && Differs(before, after, changes[i].field))
    && (forall key :: Differs(before, after, key) ==>
          exists i :: 0 <= i < |changes| && changes[i].field == key)
  }

  /** The ascending list of a finite set of strings. */
  method Listed(keys: set<string>) returns (list: seq<string>)
    ensures Ascending(list) && (forall key :: key in list <==> key in keys)
  {
    var unsorted: seq<string> := [];
    var left := keys;
    while left != {}
      invariant left <= keys
      invariant forall key :: key in unsorted <==> key in keys - left
      invariant forall i, j :: 0 <= i < j < |unsorted| ==> unsorted[i] != unsorted[j]
      decreases left
    {
      var key :| key in left;
      assert key !in unsorted;
      unsorted := unsorted + [key];
      left := left - {key};
    }
    list := SortBy(unsorted, Itself);
    SortOrder(unsorted, Itself);
    SortContents(unsorted, Itself);
    forall i, j | 0 <= i < j < |list| ensures Below(list[i], list[j]) {
      assert Below(Itself(list[i]), Itself(list[j]));
    }
    forall key ensures key in list <==> key in keys {
      assert key in list <==> key in multiset(list);
      assert key in unsorted <==> key in multiset(unsorted);
    }
  }

  lemma DifferingIsListed(a: Entries, b: Entries, key: string)
    requires Differs(a, b, key)
    ensures key in Keys(a) + Keys(b)
  {
    GetFinds(a, key);
    GetFinds(b, key);
  }

  function Itself(s: string): string { s }

  method FieldChanges(before: Entries, after: Entries) returns (changes: seq<FieldChange>)
    ensures IsFieldChanges(before, after, changes)
  {
    hide Differs, Shows, Same, OrNull, Below;
    var keys := Listed(Keys(before) + Keys(after));
    changes := [];
    for n := 0 to |keys|
      invariant AscendingBy(changes, FieldOf)
      invariant forall i :: 0 <= i < |changes| ==>
                              && changes[i].field in keys[..n]
                              && Shows(before, changes[i].field, changes[i].before)
                              && Shows(after, changes[i].field, changes[i].after)
                              && Differs(before, after, changes[i].field)
      invariant forall k :: 0 <= k < n && Differs(before, after, keys[k]) ==>
                              exists i :: 0 <= i < |changes| && changes[i].field == keys[k]
    {
      var key := keys[n];
      var b, a := OrNull(before, key), OrNull(after, key);
      OrNullShows(before, after, key);
      OrNullShows(after, before, key);
      ghost var earlier := changes;
      if !Same(b, a) {
        forall i | 0 <= i < |changes| ensures Below(changes[i].field, key) {
          var k :| 0 <= k < n && keys[..n][k] == changes[i].field;
          assert Below(keys[k], keys[n]);
        }
        changes := changes + [FieldChange(key, b, a)];
        assert changes[|earlier|].field == key;
      }
      assert keys[..n + 1] == keys[..n] + [key];
      forall k | 0 <= k < n && Differs(before, after, keys[k])
        ensures exists i :: 0 <= i < |changes| && changes[i].field == keys[k]
      {
        var i :| 0 <= i < |earlier| && earlier[i].field == keys[k];
        assert changes[i].field == keys[k];
      }
    }
    forall key | Differs(before, after, key) ensures exists i :: 0 <= i < |changes| && changes[i].field == key {
      DifferingIsListed(before, after, key);
      var k :| 0 <= k < |keys| && keys[k] == key;
    }
  }

  /** The comparison form of each rule under its id; a later rule replaces an earlier one. */
  function Indexed(rules: seq<Entries>): map<string, Entries> {
    if rules == [] then map[]
    else
      var last := rules[|rules| - 1];
      Indexed(rules[..|rules| - 1])[RuleId(last) := Comparable(last)]
  }

  lemma {:induction false} IndexedKeys(rules: seq<Entries>)
    ensures forall id :: id in Indexed(rules) <==> exists i :: 0 <= i < |rules| && RuleId(rules[i]) == id
  {
    hide RuleId, Comparable;
    if rules == [] {
    } else {
      var k := |rules| - 1;
      IndexedKeys(rules[..k]);
      forall id ensures id in Indexed(rules) <==> exists i :: 0 <= i < |rules| && RuleId(rules[i]) == id {
        if id in Indexed(rules[..k]) {
          var i :| 0 <= i < k && RuleId(rules[..k][i]) == id;
          assert RuleId(rules[i]) == id;
        }
        if i :| 0 <= i < |rules| && RuleId(rules[i]) == id {
          if i < k {
            assert RuleId(rules[..k][i]) == id;
          }
        }
      }
    }
  }

  predicate HasRuleId(entries: Entries, id: string) { Get(entries, "rule_id") == Some(Str(id)) }

  /** A side can be indexed when every rule has a string id and no two rules share one. */
  lemma IndexableIff(rules: seq<Entries>)
    ensures Indexable(rules) <==>
            && (forall i :: 0 <= i < |rules| ==>
                  Get(rules[i], "rule_id").Some? && Get(rules[i], "rule_id").value.Str?)
            && forall i, j :: 0 <= i < j < |rules| ==> Get(rules[i], "rule_id") != Get(rules[j], "rule_id")
  {
    forall i, j | 0 <= i < j < |rules| && ReadableId(rules[i]) && ReadableId(rules[j])
      ensures RuleId(rules[i]) != RuleId(rules[j]) <==> Get(rules[i], "rule_id") != Get(rules[j], "rule_id")
    {}
  }

  /** The index has every rule of the side under its id in comparison form, and nothing else. */
  lemma {:induction false} IndexedIs(rules: seq<Entries>, id: string, form: Entries)
    requires Indexable(rules)
    ensures id in Indexed(rules) && Indexed(rules)[id] == form <==>
            exists i :: 0 <= i < |rules| && HasRuleId(rules[i], id) && Comparable(rules[i]) == form
  {
    hide Comparable;
    if rules == [] {
    } else {
      var k := |rules| - 1;
      var last := rules[k];
      assert rules[..k + 1] == rules;
      if !Indexable(rules[..k]) {
        PrefixIndexable(rules, k);
      }
      assert HasRuleId(last, RuleId(last));
      hide Indexable, RuleId;
      IndexedIs(rules[..k], id, form);
      IndexableNext(rules, k);
      IndexedHas(rules, k, id);
      if id in Indexed(rules) && Indexed(rules)[id] == form && id != RuleId(last) {
        var i :| 0 <= i < k && HasRuleId(rules[..k][i], id) && Comparable(rules[..k][i]) == form;
        assert HasRuleId(rules[i], id);
      }
      if i :| 0 <= i < |rules| && HasRuleId(rules[i], id) && Comparable(rules[i]) == form {
        if i < k {
          assert HasRuleId(rules[..k][i], id);
        }
      }
    }
  }

  lemma IndexedHas(rules: seq<Entries>, k: nat, id: string)
    requires k < |rules| && Indexable(rules) && RuleId(rules[k]) !in Indexed(rules[..k])
    ensures HasRuleId(rules[k], id) <==> id == RuleId(rules[k])
  {}

  lemma IndexableNext(rules: seq<Entries>, n: nat)
    requires n < |rules| && Indexable(rules[..n])
    ensures Indexable(rules[..n + 1]) <==> ReadableId(rules[n]) && RuleId(rules[n]) !in Indexed(rules[..n])
    ensures Indexed(rules[..n + 1]) == Indexed(rules[..n])[RuleId(rules[n]) := Comparable(rules[n])]
  {
    hide ReadableId, RuleId, Comparable;
    var before, after := rules[..n], rules[..n + 1];
    assert after[..n] == before && after[n] == rules[n];
    assert forall i :: 0 <= i < n ==> after[i] == before[i];
    IndexedKeys(before);
  }

  lemma PrefixIndexable(rules: seq<Entries>, n: nat)
    requires n <= |rules| && !Indexable(rules[..n])
    ensures !Indexable(rules)
  {
    hide ReadableId, RuleId;
    var before := rules[..n];
    if Indexable(rules) {
      forall i | 0 <= i < n ensures ReadableId(before[i]) {
        assert before[i] == rules[i];
      }
      forall i, j | 0 <= i < j < n ensures RuleId(before[i]) != RuleId(before[j]) {
        assert before[i] == rules[i] && before[j] == rules[j];
      }
    }
  }

  /** Index one side, or refuse an unreadable or repeated id. */
  method BuildIndex(rules: seq<Entries>) returns (index: Option<map<string, Entries>>)
    ensures index.Some? <==> Indexable(rules)
    ensures index.Some? ==> index.value == Indexed(rules)
  {
    hide ReadableId, RuleId, Comparable, Indexable, Indexed;
    var built: map<string, Entries> := map[];
    NothingIndexed();
    assert rules[..0] == [];
    for n := 0 to |rules|
      invariant built == Indexed(rules[..n]) && Indexable(rules[..n])
    {
      IndexableNext(rules, n);
      if !ReadableId(rules[n]) || RuleId(rules[n]) in built {
        PrefixIndexable(rules, n + 1);
        return None;
      }
      var rule := new Rule(rules[n]);
      var form := rule.ToComparable();
      built := built[RuleId(rules[n]) := form];
    }
    assert rules[..|rules|] == rules;
    return Some(built);
  }

  lemma NothingIndexed()
    ensures Indexed([]) == map[] && Indexable([])
  {}

  function At(index: map<string, Entries>, id: string): Option<Entries> {
    if id in index then Some(index[id]) else None
  }

  /** No field differs, an absent one read as null. */
  ghost predicate Agree(a: Entries, b: Entries) { forall key :: !Differs(a, b, key) }

  ghost predicate IsChange(local: Option<Entries>, remote: Option<Entries>, change: Change) {
    match (local, remote)
    case (Some(l), None) => change.Added? && IsText(l, "name", change.name)
    case (None, Some(r)) => change.RemoteOnly? && IsText(r, "name", change.name)
    case (Some(l), Some(r)) =>
      if change.Unchanged? then Agree(r, l)
      else change.Modified? && IsText(l, "name", change.name) && change.fields != [] &&
           IsFieldChanges(r, l, change.fields)
    case (None, None) => false
  }

  function IdOf(change: Change): string { change.ruleId }

  /** One change per id of either side, in the order of the ids. */
  ghost predicate IsDrift(local: map<string, Entries>, remote: map<string, Entries>, changes: seq<Change>) {
    && AscendingBy(changes, IdOf)
    && (forall id :: id in local || id in remote <==> exists i :: 0 <= i < |changes| && changes[i].ruleId == id)
    && forall i :: 0 <= i < |changes| ==>
                     IsChange(At(local, changes[i].ruleId), At(remote, changes[i].ruleId), changes[i])
  }

  lemma EmptyMeansAgree(before: Entries, after: Entries, changes: seq<FieldChange>)
    requires IsFieldChanges(before, after, changes)
    ensures changes == [] <==> Agree(before, after)
  {
    hide Differs, Shows;
    if changes != [] {
      assert Differs(before, after, changes[0].field);
    }
  }

  /** The change of one id. */
  method ChangeOf(id: string, local: Option<Entries>, remote: Option<Entries>) returns (change: Change)
    requires local.Some? || remote.Some?
    ensures IsChange(local, remote, change) && change.ruleId == id
  {
    if remote.None? {
      return Added(id, TextField(local.value, "name"));
    }
    if local.None? {
      return RemoteOnly(id, TextField(remote.value, "name"));
    }
    var fields := FieldChanges(remote.value, local.value);
    EmptyMeansAgree(remote.value, local.value, fields);
    if fields == [] {
      return Unchanged(id);
    }
    return Modified(id, TextField(local.value, "name"), fields);
  }

  /** Compare two rule sets, or refuse a side that cannot be matched by id. */
  method Compute(local: seq<Entries>, remote: seq<Entries>) returns (changes: Option<seq<Change>>)
    ensures changes.Some? <==> Indexable(local) && Indexable(remote)
    ensures changes.Some? ==> IsDrift(Indexed(local), Indexed(remote), changes.value)
  {
    hide Indexed, IsChange, Indexable;
    var l := BuildIndex(local);
    if l.None? {
      return None;
    }
    var r := BuildIndex(remote);
    if r.None? {
      return None;
    }
    var ids := Listed(l.value.Keys + r.value.Keys);
    var all: seq<Change> := [];
    for n := 0 to |ids|
      invariant |all| == n
      invariant forall i :: 0 <= i < n ==>
                              all[i].ruleId == ids[i] && IsChange(At(l.value, ids[i]), At(r.value, ids[i]), all[i])
    {
      assert ids[n] in ids;
      var change := ChangeOf(ids[n], At(l.value, ids[n]), At(r.value, ids[n]));
      all := all + [change];
    }
    forall i, j | 0 <= i < j < |all| ensures Below(IdOf(all[i]), IdOf(all[j])) {
      assert Below(ids[i], ids[j]);
    }
    forall id ensures id in l.value || id in r.value <==> exists i :: 0 <= i < |all| && all[i].ruleId == id {
      if id in l.value || id in r.value {
        var i :| 0 <= i < |ids| && ids[i] == id;
        assert all[i].ruleId == id;
      } else {
        assert id !in ids;
      }
    }
    return Some(all);
  }

  // ---- what a drift report means ----

  predicate IsClean(changes: seq<Change>) { forall i :: 0 <= i < |changes| ==> changes[i].Unchanged? }

  lemma CleanIff(local: map<string, Entries>, remote: map<string, Entries>, changes: seq<Change>)
    requires IsDrift(local, remote, changes)
    ensures IsClean(changes) <==>
            local.Keys == remote.Keys && forall id :: id in local && id in remote ==> Agree(remote[id], local[id])
  {
    if IsClean(changes) {
      forall id ensures id in local <==> id in remote {
        if id in local || id in remote {
          var i :| 0 <= i < |changes| && changes[i].ruleId == id;
          assert IsChange(At(local, id), At(remote, id), changes[i]);
        }
      }
      forall id | id in local && id in remote ensures Agree(remote[id], local[id]) {
        var i :| 0 <= i < |changes| && changes[i].ruleId == id;
        assert IsChange(At(local, id), At(remote, id), changes[i]);
      }
    } else if local.Keys == remote.Keys && forall id :: id in local && id in remote ==> Agree(remote[id], local[id]) {
      var i :| 0 <= i < |changes| && !changes[i].Unchanged?;
      var id := changes[i].ruleId;
      assert IsChange(At(local, id), At(remote, id), changes[i]);
      assert id in local || id in remote;
      EmptyMeansAgree(remote[id], local[id], changes[i].fields);
    }
  }

  /** The rules as pull writes them. */
  function Pulled(rules: seq<Entries>): (out: seq<Entries>)
    ensures |out| == |rules| && forall i :: 0 <= i < |out| ==> out[i] == Canonical(rules[i])
  {
    seq(|rules|, i requires 0 <= i < |rules| => Canonical(rules[i]))
  }

  /** The id survives normalization. */
  lemma IdSurvives(entries: Entries)
    requires IsRule(entries)
    ensures ReadableId(entries) ==> ReadableId(Canonical(entries)) && RuleId(Canonical(entries)) == RuleId(entries)
  {
    CanonicalGets(entries, "rule_id");
    assert "rule_id" !in VOLATILE_FIELDS by {
      assert forall v :: 0 <= v < |VOLATILE_FIELDS| && |VOLATILE_FIELDS[v]| == 7 ==> VOLATILE_FIELDS[v][0] == 'v';
    }
    assert |"rule_id"| == 7 && |"exceptions_list"| == 15;
  }

  lemma {:induction false} PulledIndex(rules: seq<Entries>)
    requires forall i :: 0 <= i < |rules| ==> IsRule(rules[i]) && ReadableId(rules[i])
    ensures Indexed(Pulled(rules)) == Indexed(rules)
  {
    if rules == [] {
    } else {
      var k := |rules| - 1;
      PulledIndex(rules[..k]);
      assert Pulled(rules)[..k] == Pulled(rules[..k]);
      IdSurvives(rules[k]);
      ComparableOfCanonical(rules[k]);
    }
  }

  lemma {:induction false} SameReflexive(j: Json)
    requires WellFormed(j)
    ensures Same(j, j)
  {
    SortedEqualIffSame(j, j);
  }

  lemma {:induction false} IndexedAreRules(rules: seq<Entries>)
    requires forall i :: 0 <= i < |rules| ==> IsRule(rules[i])
    ensures forall id :: id in Indexed(rules) ==> IsRule(Indexed(rules)[id])
  {
    hide IsRule, Comparable, RuleId;
    if rules == [] {
    } else {
      IndexedAreRules(rules[..|rules| - 1]);
      ComparableGets(rules[|rules| - 1], "");
    }
  }

  lemma AgreeReflexive(entries: Entries)
    requires IsRule(entries)
    ensures Agree(entries, entries)
  {
    hide IsRule, WellFormed;
    forall key ensures !Differs(entries, entries, key) {
      OrNullShows(entries, entries, key);
      OrNullWellFormed(entries, key);
      SameReflexive(OrNull(entries, key));
    }
  }

  /** Pull, then diff: comparing the written rules with the rules they came from shows no drift. */
  lemma PullThenDiffIsClean(rules: seq<Entries>, changes: seq<Change>)
    requires Indexable(rules) && forall i :: 0 <= i < |rules| ==> IsRule(rules[i])
    requires IsDrift(Indexed(Pulled(rules)), Indexed(rules), changes)
    ensures Indexable(Pulled(rules)) && IsClean(changes)
  {
    hide IsRule, Agree, Indexed, RuleId, ReadableId, IsDrift, IsClean, Canonical;
    forall i | 0 <= i < |rules| ensures ReadableId(Pulled(rules)[i]) && RuleId(Pulled(rules)[i]) == RuleId(rules[i]) {
      IdSurvives(rules[i]);
    }
    PulledIndex(rules);
    IndexedAreRules(rules);
    var index := Indexed(rules);
    forall id | id in index ensures Agree(index[id], index[id]) {
      AgreeReflexive(index[id]);
    }
    CleanIff(Indexed(Pulled(rules)), index, changes);
  }

  function ChangedTo(changes: seq<FieldChange>, key: string, otherwise: Json): Json {
    if changes == [] then otherwise
    else if changes[|changes| - 1].field == key then changes[|changes| - 1].after
    else ChangedTo(changes[..|changes| - 1], key, otherwise)
  }

  lemma {:induction false} ChangedToFinds(changes: seq<FieldChange>, key: string, otherwise: Json)
    requires AscendingBy(changes, FieldOf)
    ensures (forall i :: 0 <= i < |changes| ==> changes[i].field != key) ==>
              ChangedTo(changes, key, otherwise) == otherwise
    ensures forall i :: 0 <= i < |changes| && changes[i].field == key ==>
              ChangedTo(changes, key, otherwise) == changes[i].after
  {
    if changes == [] {
    } else {
      var k := |changes| - 1;
      ChangedToFinds(changes[..k], key, otherwise);
      forall i | 0 <= i < k && changes[i].field == key ensures ChangedTo(changes, key, otherwise) == changes[i].after {
        assert Below(FieldOf(changes[i]), FieldOf(changes[k]));
        BelowIrreflexive(key);
        assert changes[..k][i].field == key;
      }
    }
  }

  /** Writing the reported after values over the remote rule gives the local one. */
  lemma ModifiedReachesLocal(
    local: Entries, remote: Entries, change: Change, key: string, present: Json, wanted: Json)
    requires IsChange(Some(local), Some(remote), change) && change.Modified? && IsRule(local)
    requires Shows(local, key, wanted) && Shows(remote, key, present)
    ensures Same(ChangedTo(change.fields, key, present), wanted)
  {
    OrNullWellFormed(local, key);
    SameReflexive(wanted);
    ChangedToFinds(change.fields, key, present);
    OrNullShows(remote, local, key);
    hide Same, AscendingBy, ChangedTo;
    if Differs(remote, local, key) {
      var i :| 0 <= i < |change.fields| && change.fields[i].field == key;
    }
  }

  function Swapped(changes: seq<FieldChange>): (out: seq<FieldChange>)
    ensures |out| == |changes|
    ensures forall i :: 0 <= i < |out| ==> out[i] == FieldChange(changes[i].field, changes[i].after, changes[i].before)
  {
    seq(|changes|, i requires 0 <= i < |changes| => FieldChange(changes[i].field, changes[i].after, changes[i].before))
  }

  /** The same difference seen from the other side. */
  predicate Mirrors(a: Change, b: Change) {
    && a.ruleId == b.ruleId
    && match a
       case Added(_, name) => b == RemoteOnly(a.ruleId, name)
       case RemoteOnly(_, name) => b == Added(a.ruleId, name)
       case Unchanged(_) => b.Unchanged?
       case Modified(_, _, fields) => b.Modified? && b.fields == Swapped(fields)
  }

  lemma FieldChangesMirror(a: Entries, b: Entries, there: seq<FieldChange>, back: seq<FieldChange>)
    requires IsRule(a) && IsRule(b)
    requires IsFieldChanges(a, b, there) && IsFieldChanges(b, a, back)
    ensures back == Swapped(there)
  {
    hide IsRule, WellFormed, Same, Differs, Shows, Below;
    forall key ensures Differs(a, b, key) <==> Differs(b, a, key) {
      DiffersSymmetric(a, b, key);
    }
    var swapped := Swapped(there);
    SwappedAscends(there);
    forall x ensures x in back <==> x in swapped {
      if x in back {
        var i :| 0 <= i < |back| && back[i] == x;
        var j :| 0 <= j < |there| && there[j].field == x.field;
        ShownSame(a, b, there[j], x);
        assert swapped[j] == x;
      }
      if x in swapped {
        var j :| 0 <= j < |swapped| && swapped[j] == x;
        var i :| 0 <= i < |back| && back[i].field == there[j].field;
        ShownSame(a, b, there[j], back[i]);
        assert back[i] == x;
      }
    }
    AscendingDetermined(back, swapped, FieldOf);
  }

  lemma SwappedAscends(changes: seq<FieldChange>)
    requires AscendingBy(changes, FieldOf)
    ensures AscendingBy(Swapped(changes), FieldOf)
  {
    hide Below;
    var swapped := Swapped(changes);
    forall i, j | 0 <= i < j < |swapped| ensures Below(FieldOf(swapped[i]), FieldOf(swapped[j])) {
      assert Below(FieldOf(changes[i]), FieldOf(changes[j]));
    }
  }

  lemma ShownSame(a: Entries, b: Entries, there: FieldChange, back: FieldChange)
    requires there.field == back.field
    requires Shows(a, there.field, there.before) && Shows(b, there.field, there.after)
    requires Shows(b, back.field, back.before) && Shows(a, back.field, back.after)
    ensures back == FieldChange(there.field, there.after, there.before)
  {}

  lemma OrNullWellFormed(entries: Entries, key: string)
    requires IsRule(entries)
    ensures WellFormed(OrNull(entries, key))
  {
    if Get(entries, key).Some? {
      GetWellFormed(entries, key);
    }
  }

  lemma DiffersSymmetric(a: Entries, b: Entries, key: string)
    requires IsRule(a) && IsRule(b)
    ensures Differs(a, b, key) <==> Differs(b, a, key)
  {
    OrNullWellFormed(a, key);
    OrNullWellFormed(b, key);
    SameSymmetric(OrNull(a, key), OrNull(b, key));
    OrNullShows(a, b, key);
    OrNullShows(b, a, key);
  }

  lemma AgreeSymmetric(a: Entries, b: Entries)
    requires IsRule(a) && IsRule(b) && Agree(a, b)
    ensures Agree(b, a)
  {
    hide Differs;
    forall key ensures !Differs(b, a, key) {
      DiffersSymmetric(a, b, key);
    }
  }

  lemma ChangeMirrors(local: Option<Entries>, remote: Option<Entries>, there: Change, back: Change)
    requires local.Some? ==> IsRule(local.value)
    requires remote.Some? ==> IsRule(remote.value)
    requires IsChange(local, remote, there) && IsChange(remote, local, back) && there.ruleId == back.ruleId
    ensures Mirrors(there, back)
  {
    if local.Some? && remote.Some? {
      var l, r := local.value, remote.value;
      if there.Unchanged? && back.Modified? {
        AgreeSymmetric(r, l);
        EmptyMeansAgree(l, r, back.fields);
      } else if there.Modified? && back.Unchanged? {
        AgreeSymmetric(l, r);
        EmptyMeansAgree(r, l, there.fields);
      } else if there.Modified? {
        FieldChangesMirror(r, l, there.fields, back.fields);
      }
    }
  }

  function ChangeIds(changes: seq<Change>): (ids: seq<string>)
    ensures |ids| == |changes| && forall i :: 0 <= i < |ids| ==> ids[i] == changes[i].ruleId
  {
    seq(|changes|, i requires 0 <= i < |changes| => changes[i].ruleId)
  }

  /** Swapping the sides swaps additions with remote-only rules and before with after, id by id. */
  lemma DriftMirrors(local: map<string, Entries>, remote: map<string, Entries>, there: seq<Change>, back: seq<Change>)
    requires forall id :: id in local ==> IsRule(local[id])
    requires forall id :: id in remote ==> IsRule(remote[id])
    requires IsDrift(local, remote, there) && IsDrift(remote, local, back)
    ensures |there| == |back| && forall i :: 0 <= i < |there| ==> Mirrors(there[i], back[i])
  {
    hide IsChange, Mirrors, IsRule;
    DriftIds(local, remote, there);
    DriftIds(remote, local, back);
    AscendingDetermined(ChangeIds(there), ChangeIds(back), Itself);
    forall i | 0 <= i < |there| ensures Mirrors(there[i], back[i]) {
      var id := there[i].ruleId;
      assert ChangeIds(there)[i] == ChangeIds(back)[i];
      ChangeMirrors(At(local, id), At(remote, id), there[i], back[i]);
    }
  }

  lemma DriftIds(local: map<string, Entries>, remote: map<string, Entries>, changes: seq<Change>)
    requires IsDrift(local, remote, changes)
    ensures AscendingBy(ChangeIds(changes), Itself)
    ensures forall id :: id in ChangeIds(changes) <==> id in local || id in remote
  {
    var ids := ChangeIds(changes);
    forall i, j | 0 <= i < j < |ids| ensures Below(Itself(ids[i]), Itself(ids[j])) {
      assert Below(IdOf(changes[i]), IdOf(changes[j]));
    }
    forall id ensures id in ids <==> id in local || id in remote {
      if id in ids {
        var i :| 0 <= i < |ids| && ids[i] == id;
        assert changes[i].ruleId == id;
      }
      if id in local || id in remote {
        var i :| 0 <= i < |changes| && changes[i].ruleId == id;
        assert ids[i] == id;
      }
    }
  }
}
