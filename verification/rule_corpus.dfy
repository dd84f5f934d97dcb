/** Reading a whole rule corpus through a result window by dividing it, `find_all` in `rules.rs`. */
module RuleCorpus {
  import opened Wrappers

  const RESULT_WINDOW: nat := 10_000

  const RULE_TYPES: seq<string> :=
    ["query", "eql", "esql", "threshold", "threat_match", "machine_learning", "new_terms"]

  datatype Rule = Rule(ruleId: string, kind: string, enabled: bool, body: string)

  /** `rest` stands for the filter parts that never change while a corpus is divided. */
  datatype Filter = Filter(kind: Option<string>, enabled: Option<bool>, rest: Rule -> bool)

  predicate Selects(f: Filter, r: Rule) {
    && (f.kind.Some? ==> r.kind == f.kind.value)
    && (f.enabled.Some? ==> r.enabled == f.enabled.value)
    && f.rest(r)
  }

  /** A `_find` response body. */
  datatype Response = Response(data: seq<Rule>, total: nat, page: nat, perPage: nat)

  datatype Page = Page(rules: seq<Rule>, total: nat)

  /** A response that contradicts itself is refused. */
  function DecodeFind(response: Response): Option<Page> {
    if response.page == 0 || response.perPage == 0 then None
    else if |response.data| > response.total || |response.data| > response.perPage then None
    else Some(Page(response.data, response.total))
  }

  /** A page that can be trusted: its numbers count from one, and no count is exceeded. */
  predicate Consistent(response: Response) {
    response.page >= 1 && response.perPage >= 1 && |response.data| <= response.total &&
    |response.data| <= response.perPage
  }

  /** The server's answer to the n-th request it ever gets; None for a failed request. */
  type Answers = (nat, Filter) -> Option<Response>

  function FindPage(answers: Answers, n: nat, filter: Filter): Option<Page> {
    var response := answers(n, filter);
    if response.None? then None else DecodeFind(response.value)
  }

  function Pick(corpus: seq<Rule>, p: Rule -> bool): seq<Rule> {
    if corpus == [] then []
    else (if p(corpus[0]) then [corpus[0]] else []) + Pick(corpus[1..], p)
  }

  function Matching(corpus: seq<Rule>, f: Filter): seq<Rule> { Pick(corpus, (r: Rule) => Selects(f, r)) }

  function Min(a: nat, b: nat): nat { if a < b then a else b }

  /** A server whose rules do not change: it counts exactly the matching rules and serves as many of
      them, in any order, as the window holds. */
  ghost predicate Frozen(answers: Answers, corpus: seq<Rule>) {
    forall n: nat, f: Filter :: Serves(answers(n, f), Matching(corpus, f))
  }

  predicate Serves(response: Option<Response>, matching: seq<Rule>) {
    && response.Some? && response.value.page == 1 && response.value.perPage == RESULT_WINDOW
    && response.value.total == |matching|
    && |response.value.data| == Min(|matching|, RESULT_WINDOW)
    && multiset(response.value.data) <= multiset(matching)
  }

  lemma {:induction false} PickSplit(corpus: seq<Rule>, p: Rule -> bool, q: Rule -> bool, whole: Rule -> bool)
    requires forall r :: whole(r) <==> p(r) || q(r)
    requires forall r :: !(p(r) && q(r))
    ensures multiset(Pick(corpus, whole)) == multiset(Pick(corpus, p)) + multiset(Pick(corpus, q))
    ensures |Pick(corpus, whole)| == |Pick(corpus, p)| + |Pick(corpus, q)|
  {
    if corpus == [] {
    } else {
      PickSplit(corpus[1..], p, q, whole);
    }
  }

  lemma {:induction false} PickEmptyIff(corpus: seq<Rule>, p: Rule -> bool)
    ensures |Pick(corpus, p)| == 0 <==> forall r :: r in corpus ==> !p(r)
  {
    if corpus == [] {
    } else {
      PickEmptyIff(corpus[1..], p);
    }
  }

  /** Both `enabled` halves fit the window. */
  predicate HalvesFit(corpus: seq<Rule>, f: Filter) {
    && f.enabled.None?
    && |Matching(corpus, f.(enabled := Some(true)))| <= RESULT_WINDOW
    && |Matching(corpus, f.(enabled := Some(false)))| <= RESULT_WINDOW
  }

  predicate SliceReadable(corpus: seq<Rule>, f: Filter) {
    |Matching(corpus, f)| <= RESULT_WINDOW || HalvesFit(corpus, f)
  }

  /** The division reaches every matching rule: one window is enough, or every matching type is
      known and each slice fits. */
  predicate Readable(corpus: seq<Rule>, f: Filter) {
    || |Matching(corpus, f)| <= RESULT_WINDOW
    || (f.kind.Some? && HalvesFit(corpus, f))
    || (f.kind.None?
        && (forall r :: r in corpus && Selects(f, r) ==> r.kind in RULE_TYPES)
        && forall i :: 0 <= i < |RULE_TYPES| ==> SliceReadable(corpus, f.(kind := Some(RULE_TYPES[i]))))
  }

  /** The rules of the first `k` types. */
  function Covered(corpus: seq<Rule>, f: Filter, types: seq<string>): seq<Rule> {
    Pick(corpus, (r: Rule) => Selects(f, r) && r.kind in types)
  }

  lemma CoveredNext(corpus: seq<Rule>, f: Filter, types: seq<string>, kind: string)
    requires f.kind.None? && kind !in types
    ensures multiset(Covered(corpus, f, types + [kind])) ==
            multiset(Covered(corpus, f, types)) + multiset(Matching(corpus, f.(kind := Some(kind))))
  {
    var g := f.(kind := Some(kind));
    PickSplit(corpus, (r: Rule) => Selects(f, r) && r.kind in types, (r: Rule) => Selects(g, r),
              (r: Rule) => Selects(f, r) && r.kind in types + [kind]);
  }

  lemma CoveredNone(corpus: seq<Rule>, f: Filter)
    ensures Covered(corpus, f, []) == []
  {
    PickEmptyIff(corpus, (r: Rule) => Selects(f, r) && r.kind in []);
  }

  /** The slice counts sum to the corpus count exactly when no matching rule has another type, and
      then the slices are the corpus. */
  lemma CoveredAllIff(corpus: seq<Rule>, f: Filter, types: seq<string>)
    ensures |Covered(corpus, f, types)| == |Matching(corpus, f)| <==>
            forall r :: r in corpus && Selects(f, r) ==> r.kind in types
    ensures |Covered(corpus, f, types)| == |Matching(corpus, f)| ==>
              multiset(Covered(corpus, f, types)) == multiset(Matching(corpus, f))
  {
    var other := (r: Rule) => Selects(f, r) && r.kind !in types;
    PickSplit(corpus, (r: Rule) => Selects(f, r) && r.kind in types, other, (r: Rule) => Selects(f, r));
    PickEmptyIff(corpus, other);
  }

  lemma HalvesCover(corpus: seq<Rule>, f: Filter)
    requires f.enabled.None?
    ensures multiset(Matching(corpus, f)) ==
            multiset(Matching(corpus, f.(enabled := Some(true)))) + multiset(Matching(corpus,
              f.(enabled := Some(false))))
    ensures |Matching(corpus, f)| ==
            |Matching(corpus, f.(enabled := Some(true)))| + |Matching(corpus, f.(enabled := Some(false)))|
  {
    var on, off := f.(enabled := Some(true)), f.(enabled := Some(false));
    PickSplit(corpus, (r: Rule) => Selects(on, r), (r: Rule) => Selects(off, r), (r: Rule) => Selects(f, r));
  }

  /** Within the window, a page that is not short is the matching set itself. */
  lemma FullPage(page: seq<Rule>, matching: seq<Rule>)
    requires multiset(page) <= multiset(matching) && |page| == |matching|
    ensures multiset(page) == multiset(matching)
  {
    var rest := multiset(matching) - multiset(page);
    assert multiset(matching) == multiset(page) + rest;
    assert |rest| == 0;
  }

  /** A whole slice: every matching rule and how many they are. */
  ghost predicate IsSlice(slice: Page, corpus: seq<Rule>, f: Filter) {
    slice.total == |Matching(corpus, f)| && multiset(slice.rules) == multiset(Matching(corpus, f))
  }

  class RuleServer {
    const answers: Answers
    var calls: nat

    constructor (answers: Answers)
      ensures this.answers == answers && calls == 0
    {
      this.answers := answers;
      calls := 0;
    }

    method Find(filter: Filter, ghost corpus: seq<Rule>) returns (page: Option<Page>)
      modifies this`calls
      ensures page == FindPage(answers, old(calls), filter) && calls == old(calls) + 1
      ensures page.Some? <==> answers(old(calls), filter).Some? && Consistent(answers(old(calls), filter).value)
      ensures page.Some? ==>
                var response := answers(old(calls), filter).value;
                page.value.rules == response.data && page.value.total == response.total
      ensures Frozen(answers, corpus) ==>
                && page.Some? && page.value.total == |Matching(corpus, filter)|
                && (page.value.total <= RESULT_WINDOW ==>
                      |page.value.rules| == page.value.total && IsSlice(page.value, corpus, filter))
    {
      var response := answers(calls, filter);
      page := if response.None? then None else DecodeFind(response.value);
      if Frozen(answers, corpus) {
        assert Serves(answers(calls, filter), Matching(corpus, filter));
        if |Matching(corpus, filter)| <= RESULT_WINDOW {
          FullPage(response.value.data, Matching(corpus, filter));
        }
      }
      calls := calls + 1;
    }

    /** One slice again, divided by `enabled`. */
    method ReadHalves(filter: Filter, ghost corpus: seq<Rule>) returns (slice: Option<Page>)
      modifies this`calls
      ensures slice.Some? ==> |slice.value.rules| == slice.value.total && filter.enabled.None?
      ensures Frozen(answers, corpus) ==>
                && (slice.Some? <==> HalvesFit(corpus, filter))
                && (slice.Some? ==> IsSlice(slice.value, corpus, filter))
    {
      hide Frozen, FindPage, Matching;
      if filter.enabled.Some? {
        return None;
      }
      HalvesCover(corpus, filter);
      var collected: seq<Rule>, summed: nat := [], 0;
      for half := 0 to 2
        invariant |collected| == summed
        invariant Frozen(answers, corpus) ==>
                    && (half > 0 ==> |Matching(corpus, filter.(enabled := Some(true)))| <= RESULT_WINDOW)
                    && (half > 1 ==> |Matching(corpus, filter.(enabled := Some(false)))| <= RESULT_WINDOW)
                    && summed == (if half > 0 then |Matching(corpus, filter.(enabled := Some(true)))| else 0) +
                                 (if half > 1 then |Matching(corpus, filter.(enabled := Some(false)))| else 0)
                    && multiset(collected) ==
                       (if half > 0 then multiset(Matching(corpus, filter.(enabled := Some(true)))) else multiset{}) +
                       (if half > 1 then multiset(Matching(corpus, filter.(enabled := Some(false)))) else multiset{})
      {
        var page := Find(filter.(enabled := Some(half == 0)), corpus);
        if page.None? || page.value.total > RESULT_WINDOW || |page.value.rules| < page.value.total {
          return None;
        }
        summed := summed + page.value.total;
        collected := collected + page.value.rules;
      }
      return Some(Page(collected, summed));
    }

    /** Every rule the filter selects, or nothing. */
    method FindAll(filter: Filter, ghost corpus: seq<Rule>) returns (rules: Option<seq<Rule>>)
      modifies this`calls
      ensures rules.Some? ==>
                var first := answers(old(calls), filter);
                first.Some? && Consistent(first.value) && |rules.value| == first.value.total
      ensures Frozen(answers, corpus) ==>
                && (rules.Some? <==> Readable(corpus, filter))
                && (rules.Some? ==> multiset(rules.value) == multiset(Matching(corpus, filter)))
    {
      hide Frozen, FindPage, Matching, Selects, HalvesFit, Covered;
      var first := Find(filter, corpus);
      if first.None? {
        return None;
      }
      var total := first.value.total;
      if total <= RESULT_WINDOW {
        if |first.value.rules| < total {
          return None;
        }
        return Some(first.value.rules);
      }
      if filter.kind.Some? {
        var slice := ReadHalves(filter, corpus);
        if slice.None? || slice.value.total != total {
          return None;
        }
        return Some(slice.value.rules);
      }

      var collected: seq<Rule>, summed: nat := [], 0;
      CoveredNone(corpus, filter);
      CoveredAllIff(corpus, filter, RULE_TYPES);
      assert RULE_TYPES[..0] == [];
      for k := 0 to |RULE_TYPES|
        invariant |collected| == summed
        invariant Frozen(answers, corpus) ==>
                    && (forall i :: 0 <= i < k ==> SliceReadable(corpus, filter.(kind := Some(RULE_TYPES[i]))))
                    && multiset(collected) == multiset(Covered(corpus, filter, RULE_TYPES[..k]))
      {
        var typeFilter := filter.(kind := Some(RULE_TYPES[k]));
        TypesDistinct(k);
        CoveredNext(corpus, filter, RULE_TYPES[..k], RULE_TYPES[k]);
        assert RULE_TYPES[..k + 1] == RULE_TYPES[..k] + [RULE_TYPES[k]];
        var slice := Find(typeFilter, corpus);
        if slice.None? {
          return None;
        }
        if slice.value.total <= RESULT_WINDOW {
          if |slice.value.rules| < slice.value.total {
            return None;
          }
        } else {
          slice := ReadHalves(typeFilter, corpus);
          if slice.None? {
            return None;
          }
        }
        summed := summed + slice.value.total;
        collected := collected + slice.value.rules;
      }
      assert RULE_TYPES[..|RULE_TYPES|] == RULE_TYPES;
      SameSize(collected, Covered(corpus, filter, RULE_TYPES));
      if summed != total {
        return None;
      }
      return Some(collected);
    }
  }

  lemma TypesDistinct(k: nat)
    requires k < |RULE_TYPES|
    ensures RULE_TYPES[k] !in RULE_TYPES[..k]
  {
    assert |"query"| == 5 && |"eql"| == 3 && |"esql"| == 4 && |"threshold"| == 9;
    assert |"threat_match"| == 12 && |"machine_learning"| == 16;
    assert "threshold"[0] == 't' && "new_terms"[0] == 'n';
  }

  lemma SameSize<T>(a: seq<T>, b: seq<T>)
    ensures multiset(a) == multiset(b) ==> |a| == |b|
  {
    assert |multiset(a)| == |a| && |multiset(b)| == |b|;
  }
}
