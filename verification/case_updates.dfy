/** Case updates of `cases_ops.rs`: a status change checked against the server's answer, and alerts
    attached to a case one rule at a time. */
module CaseUpdates {
  import opened Wrappers

  // ---- status ----

  datatype CaseStatus = CaseStatus(id: string, status: string)

  function CaseIds(cases: seq<CaseStatus>): set<string> { set i | 0 <= i < |cases| :: cases[i].id }

  predicate DistinctCases(cases: seq<CaseStatus>) {
    forall i, j :: 0 <= i < j < |cases| ==> cases[i].id != cases[j].id
  }

  predicate AllIn(cases: seq<CaseStatus>, status: string) {
    forall i :: 0 <= i < |cases| ==> cases[i].status == status
  }

  /** One case per planned id and no other, each in the target status. */
  predicate Answers(updated: seq<CaseStatus>, updates: seq<CaseStatus>, target: string) {
    DistinctCases(updated) && CaseIds(updated) == CaseIds(updates) && AllIn(updated, target)
  }

  lemma {:induction false} DistinctCount(cases: seq<CaseStatus>)
    requires DistinctCases(cases)
    ensures |CaseIds(cases)| == |cases|
  {
    if cases == [] {
    } else {
      var k := |cases| - 1;
      DistinctCount(cases[..k]);
      CaseIdsPush(cases, k);
      assert cases[..k + 1] == cases;
    }
  }

  lemma SubsetOfSameSize(a: set<string>, b: set<string>)
    requires a <= b && |a| == |b|
    ensures a == b
  {
    assert b == a + (b - a);
  }

  /** Counting and per-row checks add up to an exact answer, although no planned id is looked for. */
  lemma AnsweredIff(updated: seq<CaseStatus>, updates: seq<CaseStatus>, target: string)
    requires DistinctCases(updates) && AllIn(updates, target)
    ensures Answers(updated, updates, target) <==>
            && |updated| == |updates| && DistinctCases(updated)
            && forall i :: 0 <= i < |updated| ==> updated[i].id in CaseIds(updates) && updated[i].status == target
  {
    DistinctCount(updates);
    if DistinctCases(updated) {
      DistinctCount(updated);
      if |updated| == |updates| && (forall i :: 0 <= i < |updated| ==> updated[i].id in CaseIds(updates)) {
        SubsetOfSameSize(CaseIds(updated), CaseIds(updates));
      }
    }
    if CaseIds(updated) == CaseIds(updates) {
      forall i | 0 <= i < |updated| ensures updated[i].id in CaseIds(updates) {
        assert updated[i].id in CaseIds(updated);
      }
    }
  }

  /** The number of updated cases; `answer` is the server's, None when the call failed. */
  method ApplyStatus(updates: seq<CaseStatus>, target: string, answer: Option<seq<CaseStatus>>)
    returns (total: Option<nat>)
    ensures total.Some? <==>
            || updates == []
            || (DistinctCases(updates) && AllIn(updates, target) && answer.Some? &&
            Answers(answer.value, updates, target))
    ensures total.Some? ==> total.value == |updates|
  {
    hide CaseIds, DistinctCases, AllIn, Answers;
    NoCases(target);
    if updates == [] {
      return Some(0);
    }
    var expected: map<string, string> := map[];
    for k := 0 to |updates|
      invariant expected.Keys == CaseIds(updates[..k])
      invariant forall id :: id in expected ==> expected[id] == target
      invariant DistinctCases(updates[..k]) && AllIn(updates[..k], target)
    {
      var update := updates[k];
      CasesPush(updates, k, target);
      if update.status != target {
        return None;
      }
      if update.id in expected {
        return None;
      }
      expected := expected[update.id := update.status];
    }
    assert updates[..|updates|] == updates;
    DistinctCount(updates);
    AnsweredIff(if answer.Some? then answer.value else [], updates, target);
    if answer.None? || |answer.value| != |expected.Keys| {
      return None;
    }
    var updated := answer.value;
    var returned: set<string> := {};
    for k := 0 to |updated|
      invariant returned == CaseIds(updated[..k]) && DistinctCases(updated[..k])
      invariant forall i :: 0 <= i < k ==> updated[i].id in CaseIds(updates) && updated[i].status == target
    {
      CasesPush(updated, k, target);
      if updated[k].id in returned {
        return None;
      }
      if updated[k].id !in expected || updated[k].status != expected[updated[k].id] {
        return None;
      }
      returned := returned + {updated[k].id};
    }
    assert updated[..|updated|] == updated;
    return Some(|expected.Keys|);
  }

  lemma NoCases(target: string)
    ensures CaseIds([]) == {} && DistinctCases([]) && AllIn([], target)
  {}

  lemma CasesPush(cases: seq<CaseStatus>, k: nat, status: string)
    requires k < |cases|
    ensures CaseIds(cases[..k + 1]) == CaseIds(cases[..k]) + {cases[k].id}
    ensures cases[k].id !in CaseIds(cases[..k]) && DistinctCases(cases[..k]) ==> DistinctCases(cases[..k + 1])
    ensures cases[k].id in CaseIds(cases[..k]) ==> !DistinctCases(cases)
    ensures AllIn(cases[..k], status) && cases[k].status == status ==> AllIn(cases[..k + 1], status)
    ensures cases[k].status != status ==> !AllIn(cases, status)
  {
    CaseIdsPush(cases, k);
    if cases[k].id in CaseIds(cases[..k]) {
      var i :| 0 <= i < k && cases[..k][i].id == cases[k].id;
      assert cases[i].id == cases[k].id;
    }
  }

  lemma CaseIdsPush(cases: seq<CaseStatus>, k: nat)
    requires k < |cases|
    ensures CaseIds(cases[..k + 1]) == CaseIds(cases[..k]) + {cases[k].id}
  {
    forall id | id in CaseIds(cases[..k + 1]) ensures id in CaseIds(cases[..k]) + {cases[k].id} {
      var i :| 0 <= i < k + 1 && cases[..k + 1][i].id == id;
      assert i < k ==> cases[..k][i].id == id;
    }
    forall id | id in CaseIds(cases[..k]) ensures id in CaseIds(cases[..k + 1]) {
      var i :| 0 <= i < k && cases[..k][i].id == id;
      assert cases[..k + 1][i].id == id;
    }
    assert cases[..k + 1][k].id == cases[k].id;
  }

  // ---- attaching alerts ----

  datatype Hit = Hit(id: string, index: Option<string>, rule: Option<string>, name: Option<string>)

  datatype Group = Group(ruleId: string, ruleName: string, alertIds: seq<string>, indices: seq<string>)

  datatype AttachPlan = AttachPlan(groups: seq<Group>, resolved: nat)

  function Distinct(xs: seq<string>): seq<string> {
    if xs == [] then []
    else
      var before := Distinct(xs[..|xs| - 1]);
      if xs[|xs| - 1] in before then before else before + [xs[|xs| - 1]]
  }

  ghost predicate NoRepeats(xs: seq<string>) { forall i, j :: 0 <= i < j < |xs| ==> xs[i] != xs[j] }

  lemma {:induction false} DistinctIs(xs: seq<string>)
    ensures NoRepeats(Distinct(xs)) && forall x :: x in Distinct(xs) <==> x in xs
  {
    if xs == [] {
    } else {
      DistinctIs(xs[..|xs| - 1]);
      assert xs == xs[..|xs| - 1] + [xs[|xs| - 1]];
    }
  }

  function FindHit(hits: seq<Hit>, id: string): (hit: Option<Hit>)
    ensures hit.None? <==> forall i :: 0 <= i < |hits| ==> hits[i].id != id
    ensures hit.Some? ==> exists i :: 0 <= i < |hits| && hits[i] == hit.value && hit.value.id == id &&
                                     forall j :: 0 <= j < i ==> hits[j].id != id
  {
    if hits == [] then None
    else if hits[0].id == id then Some(hits[0])
    else
      var later := FindHit(hits[1..], id);
      assert forall i :: 1 <= i < |hits| ==> hits[i] == hits[1..][i - 1];
      later
  }

  /** The alert was found, with the rule and the index attaching needs. */
  predicate Usable(hits: seq<Hit>, id: string) {
    var hit := FindHit(hits, id);
    hit.Some? && hit.value.rule.Some? && hit.value.index.Some?
  }

  function RuleOf(hits: seq<Hit>, id: string): string {
    if Usable(hits, id) then FindHit(hits, id).value.rule.value else ""
  }

  function IndexOf(hits: seq<Hit>, id: string): string {
    if Usable(hits, id) then FindHit(hits, id).value.index.value else ""
  }

  function NameOf(hits: seq<Hit>, id: string): string {
    var hit := FindHit(hits, id);
    if hit.Some? && hit.value.name.Some? then hit.value.name.value else "(unnamed rule)"
  }

  function RulesOf(hits: seq<Hit>, ids: seq<string>): seq<string> {
    seq(|ids|, i requires 0 <= i < |ids| => RuleOf(hits, ids[i]))
  }

  function IndicesOf(hits: seq<Hit>, ids: seq<string>): seq<string> {
    seq(|ids|, i requires 0 <= i < |ids| => IndexOf(hits, ids[i]))
  }

  /** The alerts of a shorter list come first, so the order is that of first appearance. */
  lemma {:induction false} DistinctGrows(xs: seq<string>, k: nat)
    requires k <= |xs|
    ensures Distinct(xs[..k]) <= Distinct(xs)
  {
    if k == |xs| {
      assert xs[..k] == xs;
    } else {
      DistinctGrows(xs[..|xs| - 1], k);
      assert xs[..|xs| - 1][..k] == xs[..k];
    }
  }

  /** The alerts of one rule, in order. */
  function OfRule(hits: seq<Hit>, ids: seq<string>, rule: string): seq<string> {
    if ids == [] then []
    else OfRule(hits, ids[..|ids| - 1], rule) + if RuleOf(hits, ids[|ids| - 1]) == rule then [ids[|ids| - 1]] else []
  }

  function GroupOf(hits: seq<Hit>, ids: seq<string>, rule: string): Group {
    var members := OfRule(hits, ids, rule);
    Group(rule, if members == [] then "" else NameOf(hits, members[0]), members, IndicesOf(hits, members))
  }

  /** One group per rule, rules in the order they first appear. */
  function GroupsOf(hits: seq<Hit>, ids: seq<string>): seq<Group> {
    var rules := Distinct(RulesOf(hits, ids));
    seq(|rules|, i requires 0 <= i < |rules| => GroupOf(hits, ids, rules[i]))
  }

  function AlertIds(groups: seq<Group>): seq<string> {
    if groups == [] then [] else AlertIds(groups[..|groups| - 1]) + groups[|groups| - 1].alertIds
  }

  lemma {:induction false} OfRuleMembers(hits: seq<Hit>, ids: seq<string>, rule: string)
    ensures forall id :: id in OfRule(hits, ids, rule) <==> id in ids && RuleOf(hits, id) == rule
  {
    if ids == [] {
    } else {
      OfRuleMembers(hits, ids[..|ids| - 1], rule);
      assert ids == ids[..|ids| - 1] + [ids[|ids| - 1]];
    }
  }

  function Gathered(hits: seq<Hit>, ids: seq<string>, rules: seq<string>): multiset<string> {
    if rules == [] then multiset{}
    else Gathered(hits, ids, rules[..|rules| - 1]) + multiset(OfRule(hits, ids, rules[|rules| - 1]))
  }

  lemma OfRulePush(hits: seq<Hit>, ids: seq<string>, id: string, rule: string)
    ensures multiset(OfRule(hits, ids + [id], rule)) ==
            multiset(OfRule(hits, ids, rule)) + if RuleOf(hits, id) == rule then multiset{id} else multiset{}
  {
    hide RuleOf;
    assert (ids + [id])[..|ids|] == ids;
  }

  lemma {:induction false} GatheredPush(hits: seq<Hit>, ids: seq<string>, id: string, rules: seq<string>)
    requires NoRepeats(rules)
    ensures Gathered(hits, ids + [id], rules) ==
            Gathered(hits, ids, rules) + if RuleOf(hits, id) in rules then multiset{id} else multiset{}
  {
    hide RuleOf, OfRule;
    if rules == [] {
    } else {
      var k := |rules| - 1;
      GatheredPush(hits, ids, id, rules[..k]);
      OfRulePush(hits, ids, id, rules[k]);
      assert RuleOf(hits, id) in rules <==> RuleOf(hits, id) in rules[..k] || RuleOf(hits, id) == rules[k];
      assert rules[k] !in rules[..k];
    }
  }

  lemma {:induction false} GatheredAll(hits: seq<Hit>, ids: seq<string>, rules: seq<string>)
    requires NoRepeats(rules) && forall id :: id in ids ==> RuleOf(hits, id) in rules
    ensures Gathered(hits, ids, rules) == multiset(ids)
  {
    hide RuleOf, Gathered;
    if ids == [] {
      GatheredNothing(hits, rules);
    } else {
      var k := |ids| - 1;
      assert forall id :: id in ids[..k] ==> id in ids;
      GatheredAll(hits, ids[..k], rules);
      GatheredPush(hits, ids[..k], ids[k], rules);
      assert ids == ids[..k] + [ids[k]];
    }
  }

  lemma {:induction false} GatheredNothing(hits: seq<Hit>, rules: seq<string>)
    ensures Gathered(hits, [], rules) == multiset{}
  {
    if rules == [] {
    } else {
      GatheredNothing(hits, rules[..|rules| - 1]);
    }
  }

  lemma {:induction false} AlertsGathered(hits: seq<Hit>, ids: seq<string>, rules: seq<string>, groups: seq<Group>)
    requires |groups| == |rules| && forall i :: 0 <= i < |rules| ==> groups[i].alertIds == OfRule(hits, ids, rules[i])
    ensures multiset(AlertIds(groups)) == Gathered(hits, ids, rules)
  {
    if rules == [] {
    } else {
      AlertsGathered(hits, ids, rules[..|rules| - 1], groups[..|rules| - 1]);
    }
  }

  /** Alerts of one rule, each with its index beside it. */
  predicate OneRule(hits: seq<Hit>, group: Group) {
    && group.alertIds != [] && |group.indices| == |group.alertIds|
    && forall k :: 0 <= k < |group.alertIds| ==>
         RuleOf(hits, group.alertIds[k]) == group.ruleId && group.indices[k] == IndexOf(hits, group.alertIds[k])
  }

  lemma GroupIsOneRule(hits: seq<Hit>, ids: seq<string>, rule: string)
    requires rule in RulesOf(hits, ids)
    ensures OneRule(hits, GroupOf(hits, ids, rule))
  {
    hide OfRule, RuleOf, IndexOf, NameOf;
    var members, all := OfRule(hits, ids, rule), RulesOf(hits, ids);
    OfRuleMembers(hits, ids, rule);
    var j :| 0 <= j < |all| && all[j] == rule;
    assert ids[j] in members;
    assert forall k :: 0 <= k < |members| ==> members[k] in members;
  }

  /** Every alert of the group was found with the group's rule and the index beside it; the group is
      named after its first alert. */
  predicate Grouped(hits: seq<Hit>, group: Group) {
    && group.alertIds != [] && |group.indices| == |group.alertIds|
    && (forall k :: 0 <= k < |group.alertIds| ==>
          var hit := FindHit(hits, group.alertIds[k]);
          hit.Some? && hit.value.rule == Some(group.ruleId) && hit.value.index == Some(group.indices[k]))
    && var named := FindHit(hits, group.alertIds[0]).value.name;
       group.ruleName == if named.Some? then named.value else "(unnamed rule)"
  }

  lemma GroupsAreGrouped(hits: seq<Hit>, ids: seq<string>)
    requires forall id :: id in ids ==> Usable(hits, id)
    ensures forall i :: 0 <= i < |GroupsOf(hits, ids)| ==> Grouped(hits, GroupsOf(hits, ids)[i])
  {
    hide OfRule, FindHit, Distinct, Usable, RuleOf, IndexOf, NameOf;
    var rules, groups := Distinct(RulesOf(hits, ids)), GroupsOf(hits, ids);
    DistinctIs(RulesOf(hits, ids));
    forall i | 0 <= i < |groups| ensures Grouped(hits, groups[i]) {
      assert rules[i] in rules;
      GroupIsOneRule(hits, ids, rules[i]);
      OfRuleMembers(hits, ids, rules[i]);
      var group := groups[i];
      forall k | 0 <= k < |group.alertIds|
        ensures Usable(hits, group.alertIds[k])
        ensures RuleOf(hits, group.alertIds[k]) == group.ruleId && IndexOf(hits, group.alertIds[k]) == group.indices[k]
      {
        assert group.alertIds[k] in group.alertIds;
      }
      OneRuleGrouped(hits, group);
    }
  }

  lemma OneRuleGrouped(hits: seq<Hit>, group: Group)
    requires OneRule(hits, group) && group.ruleName == NameOf(hits, group.alertIds[0])
    requires forall k :: 0 <= k < |group.alertIds| ==> Usable(hits, group.alertIds[k])
    ensures Grouped(hits, group)
  {
    hide FindHit;
  }

  predicate DistinctRules(groups: seq<Group>) {
    forall i, j :: 0 <= i < j < |groups| ==> groups[i].ruleId != groups[j].ruleId
  }

  /** The groups partition the alerts: each in exactly one group, that of its rule, with its index
      beside it; no two groups share a rule and none is empty. */
  lemma GroupsPartition(hits: seq<Hit>, ids: seq<string>)
    ensures var groups := GroupsOf(hits, ids);
            && multiset(AlertIds(groups)) == multiset(ids) && |AlertIds(groups)| == |ids|
            && DistinctRules(groups)
            && forall i :: 0 <= i < |groups| ==> OneRule(hits, groups[i])
  {
    hide OfRule, RuleOf, OneRule, NameOf, IndicesOf, Gathered, AlertIds, Distinct;
    var all := RulesOf(hits, ids);
    var rules, groups := Distinct(all), GroupsOf(hits, ids);
    DistinctIs(all);
    forall id | id in ids ensures RuleOf(hits, id) in rules {
      var i :| 0 <= i < |ids| && ids[i] == id;
      assert all[i] in all;
    }
    GatheredAll(hits, ids, rules);
    AlertsGathered(hits, ids, rules, groups);
    assert |multiset(AlertIds(groups))| == |multiset(ids)|;
    forall i | 0 <= i < |groups| ensures OneRule(hits, groups[i]) {
      assert rules[i] in rules;
      GroupIsOneRule(hits, ids, rules[i]);
    }
  }

  lemma {:induction false} OfRuleNone(hits: seq<Hit>, ids: seq<string>, rule: string)
    requires rule !in RulesOf(hits, ids)
    ensures OfRule(hits, ids, rule) == []
  {
    if ids == [] {
    } else {
      var k := |ids| - 1;
      assert RulesOf(hits, ids)[k] == RuleOf(hits, ids[k]);
      assert RulesOf(hits, ids) == RulesOf(hits, ids[..k]) + [RuleOf(hits, ids[k])];
      OfRuleNone(hits, ids[..k], rule);
    }
  }

  lemma RulesPush(hits: seq<Hit>, ids: seq<string>, id: string)
    ensures var rules, rule := Distinct(RulesOf(hits, ids)), RuleOf(hits, id);
            Distinct(RulesOf(hits, ids + [id])) == if rule in rules then rules else rules + [rule]
  {
    hide RuleOf;
    var all := RulesOf(hits, ids);
    assert RulesOf(hits, ids + [id]) == all + [RuleOf(hits, id)];
    assert (all + [RuleOf(hits, id)])[..|all|] == all;
  }

  lemma GroupPush(hits: seq<Hit>, ids: seq<string>, id: string, rule: string)
    requires rule in RulesOf(hits, ids)
    ensures var group := GroupOf(hits, ids, rule);
            GroupOf(hits, ids + [id], rule) ==
            if RuleOf(hits, id) != rule then group
            else group.(alertIds := group.alertIds + [id], indices := group.indices + [IndexOf(hits, id)])
  {
    hide RuleOf, IndexOf, NameOf;
    assert (ids + [id])[..|ids|] == ids;
    var members := OfRule(hits, ids, rule);
    OfRuleMembers(hits, ids, rule);
    var all := RulesOf(hits, ids);
    var i :| 0 <= i < |all| && all[i] == rule;
    assert ids[i] in members;
    if RuleOf(hits, id) != rule {
      assert members + [] == members;
    } else {
      assert IndicesOf(hits, members + [id]) == IndicesOf(hits, members) + [IndexOf(hits, id)];
    }
  }

  lemma GroupOpens(hits: seq<Hit>, ids: seq<string>, id: string)
    requires RuleOf(hits, id) !in RulesOf(hits, ids)
    ensures GroupOf(hits, ids + [id], RuleOf(hits, id)) == Group(RuleOf(hits, id), NameOf(hits, id), [id],
      [IndexOf(hits, id)])
  {
    hide RuleOf, IndexOf, NameOf;
    OfRuleNone(hits, ids, RuleOf(hits, id));
    assert (ids + [id])[..|ids|] == ids;
    assert OfRule(hits, ids + [id], RuleOf(hits, id)) == [id];
    assert IndicesOf(hits, [id]) == [IndexOf(hits, id)];
  }

  /** One more alert joins the group of its rule, or opens one. */
  lemma GroupsPush(hits: seq<Hit>, ids: seq<string>, id: string, j: nat)
    requires var groups := GroupsOf(hits, ids);
             && j <= |groups| && (j < |groups| ==> groups[j].ruleId == RuleOf(hits, id))
             && forall i :: 0 <= i < j ==> groups[i].ruleId != RuleOf(hits, id)
    ensures var groups, rule, index := GroupsOf(hits, ids), RuleOf(hits, id), IndexOf(hits, id);
            GroupsOf(hits, ids + [id]) ==
            if j < |groups| then groups[j := groups[j].(alertIds := groups[j].alertIds + [id],
              indices := groups[j].indices + [index])]
            else groups + [Group(rule, NameOf(hits, id), [id], [index])]
  {
    hide RuleOf, IndexOf, NameOf, OfRule, RulesOf, Distinct, IndicesOf;
    var groups, rule, all := GroupsOf(hits, ids), RuleOf(hits, id), RulesOf(hits, ids);
    var rules := Distinct(all);
    DistinctIs(all);
    RulesPush(hits, ids, id);
    assert forall i :: 0 <= i < |rules| ==> groups[i].ruleId == rules[i];
    assert rule in rules ==> exists i :: 0 <= i < |groups| && groups[i].ruleId == rule;
    var next := GroupsOf(hits, ids + [id]);
    forall i | 0 <= i < |rules| ensures next[i] == GroupOf(hits, ids + [id], rules[i]) && rules[i] in all {
    }
    forall i | 0 <= i < |rules| ensures next[i] == if i == j then groups[i].(
      alertIds := groups[i].alertIds + [id], indices := groups[i].indices + [IndexOf(hits, id)]) else groups[i]
    {
      GroupPush(hits, ids, id, rules[i]);
      assert i != j && j < |rules| ==> rules[i] != rules[j];
    }
    if j == |groups| {
      assert rule !in rules;
      GroupOpens(hits, ids, id);
      assert next[j] == GroupOf(hits, ids + [id], rule);
    } else {
      assert rules[j] == rule;
    }
  }

  method Deduplicate(ids: seq<string>) returns (unique: seq<string>)
    ensures unique == Distinct(ids)
  {
    unique := [];
    for k := 0 to |ids|
      invariant unique == Distinct(ids[..k])
    {
      assert ids[..k + 1][..k] == ids[..k];
      if ids[k] !in unique {
        unique := unique + [ids[k]];
      }
    }
    assert ids[..|ids|] == ids;
  }

  /** Resolve every alert, refuse if one is missing or lacks its rule or index, and group by rule.
      `hits` is the server's answer, None when the case or the search could not be read. */
  method PlanAttach(alertIds: seq<string>, hits: Option<seq<Hit>>) returns (plan: Option<AttachPlan>)
    ensures plan.Some? <==> alertIds != [] && hits.Some? && forall id :: id in alertIds ==> Usable(hits.value, id)
    ensures plan.Some? ==>
              var ids := Distinct(alertIds);
              plan.value == AttachPlan(GroupsOf(hits.value, ids), |ids|)
    ensures plan.Some? ==>
              && (forall i :: 0 <= i < |plan.value.groups| ==> Grouped(hits.value, plan.value.groups[i]))
              && DistinctRules(plan.value.groups)
              && multiset(AlertIds(plan.value.groups)) == multiset(Distinct(alertIds))
  {
    hide FindHit, Usable, RuleOf, IndexOf, NameOf, GroupsOf, Distinct;
    if alertIds == [] {
      return None;
    }
    var unique := Deduplicate(alertIds);
    DistinctIs(alertIds);
    if hits.None? {
      return None;
    }
    if missing :| missing in unique && FindHit(hits.value, missing).None? {
      NotUsable(hits.value, missing);
      return None;
    }
    var groups: seq<Group> := [];
    NoGroups(hits.value);
    for k := 0 to |unique|
      invariant groups == GroupsOf(hits.value, unique[..k])
      invariant forall i :: 0 <= i < k ==> Usable(hits.value, unique[i])
    {
      var id := unique[k];
      var hit := FindHit(hits.value, id).value;
      UsableParts(hits.value, id);
      if hit.rule.None? || hit.index.None? {
        return None;
      }
      var j := 0;
      while j < |groups| && groups[j].ruleId != hit.rule.value
        invariant 0 <= j <= |groups| && forall i :: 0 <= i < j ==> groups[i].ruleId != hit.rule.value
      {
        j := j + 1;
      }
      GroupsPush(hits.value, unique[..k], id, j);
      if j < |groups| {
        groups := groups[j := groups[j].(alertIds := groups[j].alertIds + [id],
          indices := groups[j].indices + [hit.index.value])];
      } else {
        var name := if hit.name.Some? then hit.name.value else "(unnamed rule)";
        groups := groups + [Group(hit.rule.value, name, [id], [hit.index.value])];
      }
      assert unique[..k + 1] == unique[..k] + [id];
    }
    assert unique[..|unique|] == unique;
    GroupsAreGrouped(hits.value, unique);
    GroupsPartition(hits.value, unique);
    plan := Some(AttachPlan(groups, |unique|));
  }

  lemma NotUsable(hits: seq<Hit>, id: string)
    requires FindHit(hits, id).None?
    ensures !Usable(hits, id)
  {}

  lemma NoGroups(hits: seq<Hit>)
    ensures GroupsOf(hits, []) == []
  {}

  lemma UsableParts(hits: seq<Hit>, id: string)
    requires FindHit(hits, id).Some?
    ensures var hit := FindHit(hits, id).value;
            && (Usable(hits, id) <==> hit.rule.Some? && hit.index.Some?)
            && (Usable(hits, id) ==> RuleOf(hits, id) == hit.rule.value && IndexOf(hits, id) == hit.index.value)
            && NameOf(hits, id) == if hit.name.Some? then hit.name.value else "(unnamed rule)"
  {}

  // ---- applying ----

  datatype EditReport = EditReport(total: nat, updated: nat, failed: nat, failures: seq<string>)

  /** How many alerts the acknowledged groups have. */
  function Acknowledged(groups: seq<Group>, acks: seq<bool>): nat
    requires |acks| == |groups|
  {
    if groups == [] then 0
    else (if acks[0] then |groups[0].alertIds| else 0) + Acknowledged(groups[1..], acks[1..])
  }

  lemma {:induction false} AcknowledgedPush(groups: seq<Group>, acks: seq<bool>, k: nat)
    requires |acks| == |groups| && k < |groups|
    ensures Acknowledged(groups[..k + 1], acks[..k + 1]) ==
            Acknowledged(groups[..k], acks[..k]) + if acks[k] then |groups[k].alertIds| else 0
    decreases k
  {
    assert groups[..k + 1][1..] == groups[1..][..k] && acks[..k + 1][1..] == acks[1..][..k];
    if k == 0 {
    } else {
      AcknowledgedPush(groups[1..], acks[1..], k - 1);
      assert groups[..k][1..] == groups[1..][..k - 1] && acks[..k][1..] == acks[1..][..k - 1];
    }
  }

  /** The positions of the groups that were refused, in order. */
  predicate RefusedAt(acks: seq<bool>, refused: seq<nat>) {
    && (forall i, j :: 0 <= i < j < |refused| ==> refused[i] < refused[j])
    && (forall i :: 0 <= i < |refused| ==> refused[i] < |acks| && !acks[refused[i]])
    && forall k :: 0 <= k < |acks| && !acks[k] ==> k in refused
  }

  /** One request per group; a failing one does not stop the others. */
  method ApplyAttach(plan: AttachPlan, acks: seq<bool>) returns (report: EditReport, ghost refused: seq<nat>)
    requires |acks| == |plan.groups|
    ensures report.total == plan.resolved && report.updated == Acknowledged(plan.groups, acks)
    ensures report.updated <= report.total ==> report.failed == report.total - report.updated
    ensures report.updated > report.total ==> report.failed == report.updated - report.total
    ensures RefusedAt(acks, refused) && |report.failures| == |refused|
    ensures forall i :: 0 <= i < |refused| ==> report.failures[i] == plan.groups[refused[i]].ruleName
  {
    hide Acknowledged;
    var attached, failures: seq<string> := 0, [];
    refused := [];
    NothingAcknowledged();
    for k := 0 to |plan.groups|
      invariant attached == Acknowledged(plan.groups[..k], acks[..k])
      invariant RefusedAt(acks[..k], refused) && |failures| == |refused|
      invariant forall i :: 0 <= i < |refused| ==> failures[i] == plan.groups[refused[i]].ruleName
    {
      var group := plan.groups[k];
      AcknowledgedPush(plan.groups, acks, k);
      RefusedPush(acks, k, refused);
      if acks[k] {
        attached := attached + |group.alertIds|;
      } else {
        failures := failures + [group.ruleName];
        refused := refused + [k];
      }
    }
    assert plan.groups[..|plan.groups|] == plan.groups && acks[..|acks|] == acks;
    var failed := if attached <= plan.resolved then plan.resolved - attached else attached - plan.resolved;
    report := EditReport(plan.resolved, attached, failed, failures);
  }

  lemma NothingAcknowledged()
    ensures Acknowledged([], []) == 0
  {}

  lemma RefusedPush(acks: seq<bool>, k: nat, refused: seq<nat>)
    requires k < |acks| && RefusedAt(acks[..k], refused)
    ensures RefusedAt(acks[..k + 1], if acks[k] then refused else refused + [k])
  {
    assert forall i :: 0 <= i < k ==> acks[..k + 1][i] == acks[..k][i];
    var next := if acks[k] then refused else refused + [k];
    forall i | 0 <= i < k + 1 && !acks[..k + 1][i] ensures i in next {
      if i == k {
        assert next[|refused|] == k;
      } else {
        assert !acks[..k][i];
      }
    }
  }

  function Negated(acks: seq<bool>): seq<bool> { seq(|acks|, i requires 0 <= i < |acks| => !acks[i]) }

  lemma {:induction false} OutcomesPartition(groups: seq<Group>, acks: seq<bool>)
    requires |acks| == |groups|
    ensures Acknowledged(groups, acks) + Acknowledged(groups, Negated(acks)) == |AlertIds(groups)|
  {
    if groups == [] {
    } else {
      var k := |groups| - 1;
      OutcomesPartition(groups[..k], acks[..k]);
      AcknowledgedPush(groups, acks, k);
      AcknowledgedPush(groups, Negated(acks), k);
      assert groups[..k + 1] == groups && acks[..k + 1] == acks && Negated(acks)[..k + 1] == Negated(acks);
      assert Negated(acks)[..k] == Negated(acks[..k]);
    }
  }

  /** The counts of `ApplyAttach` account for every alert of a plan `PlanAttach` returned: updated
      and failed add up to the total, and failed counts exactly the alerts of the refused groups. */
  lemma AttachAccounts(alertIds: seq<string>, hits: seq<Hit>, acks: seq<bool>)
    requires |acks| == |GroupsOf(hits, Distinct(alertIds))|
    ensures var groups, total := GroupsOf(hits, Distinct(alertIds)), |Distinct(alertIds)|;
            var updated := Acknowledged(groups, acks);
            updated <= total && total - updated == Acknowledged(groups, Negated(acks))
  {
    GroupsPartition(hits, Distinct(alertIds));
    OutcomesPartition(GroupsOf(hits, Distinct(alertIds)), acks);
  }
}
