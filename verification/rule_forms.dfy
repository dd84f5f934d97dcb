/** The on-disk and the comparison form of a rule, `normalize.rs`. */
module RuleForms {
  import opened Wrappers
  import opened JsonTree
  import opened KeyOrder

  const VOLATILE_FIELDS: seq<string> :=
    ["id", "created_at", "created_by", "updated_at", "updated_by", "revision", "version", "execution_summary"]

  const SERVER_DEFAULTS: seq<(string, Json)> :=
    [("actions", Arr([])), ("author", Arr([])), ("exceptions_list", Arr([])), ("false_positives", Arr([])),
     ("immutable", Bool(false)), ("max_signals", Number("100")), ("output_index", Str("")),
     ("references", Arr([])), ("related_integrations", Arr([])), ("required_fields", Arr([])),
     ("risk_score_mapping", Arr([])), ("rule_source", Obj([("type", Str("internal"))])), ("setup", Str("")),
     ("severity_mapping", Arr([])), ("threat", Arr([])), ("to", Str("now"))]

  /** A rule is an object: entries with unique keys, also below. */
  type Entries = seq<(string, Json)>

  predicate IsRule(entries: Entries) { WellFormed(Obj(entries)) }

  /** Index of a key, or the length. */
  function IndexOf(entries: Entries, key: string): (i: nat)
    ensures i <= |entries| && (i < |entries| ==> entries[i].0 == key)
    ensures forall k :: 0 <= k < i ==> entries[k].0 != key
  {
    if entries == [] || entries[0].0 == key then 0
    else
      var i := IndexOf(entries[1..], key);
      assert forall k :: 1 <= k < i + 1 ==> entries[k] == entries[1..][k - 1];
      i + 1
  }

  /** Removal from an insertion-ordered map moves the last entry into the gap. */
  function Remove(entries: Entries, key: string): Entries {
    var i := IndexOf(entries, key);
    if i == |entries| then entries
    else if i == |entries| - 1 then entries[..i]
    else entries[..i] + [entries[|entries| - 1]] + entries[i + 1..|entries| - 1]
  }

  function RemoveAll(entries: Entries, keys: seq<string>): Entries {
    if keys == [] then entries else Remove(RemoveAll(entries, keys[..|keys| - 1]), keys[|keys| - 1])
  }

  /** Overwrite the value of a key that is there. */
  function Put(entries: Entries, key: string, value: Json): Entries {
    var i := IndexOf(entries, key);
    if i == |entries| then entries + [(key, value)] else entries[i := (key, value)]
  }

  function StripReference(r: Json): Json {
    if r.Obj? then Obj(Remove(r.entries, "id")) else r
  }

  function StripReferences(value: Json): Json {
    match value
    case Arr(items) => Arr(seq(|items|, i requires 0 <= i < |items| => StripReference(items[i])))
    case _ => value
  }

  function StripExceptionIds(entries: Entries): Entries {
    match Get(entries, "exceptions_list")
    case Some(value) => if value.Arr? then Put(entries, "exceptions_list", StripReferences(value)) else entries
    case None => entries
  }

  function FillDefaults(entries: Entries, defaults: Entries): Entries {
    if defaults == [] then entries
    else
      var filled := FillDefaults(entries, defaults[..|defaults| - 1]);
      var (key, value) := defaults[|defaults| - 1];
      if Get(filled, key).Some? then filled else filled + [(key, value)]
  }

  function Stripped(entries: Entries): Entries { StripExceptionIds(RemoveAll(entries, VOLATILE_FIELDS)) }

  /** What pull writes. */
  function Canonical(entries: Entries): Entries { Sorted(Obj(Stripped(entries))).entries }

  /** What diff compares. */
  function Comparable(entries: Entries): Entries {
    Sorted(Obj(FillDefaults(Stripped(entries), SERVER_DEFAULTS))).entries
  }

  // ---- what each step does to every key ----

  lemma GetIff(entries: Entries, key: string, value: Json)
    requires UniqueKeys(entries)
    ensures Get(entries, key) == Some(value) <==> (key, value) in entries
  {
    GetFinds(entries, key);
    if (key, value) in entries {
      var i :| 0 <= i < |entries| && entries[i] == (key, value);
      GetAt(entries, i);
    }
  }

  /** Entries with unique keys are the same elements exactly when every key reads the same. */
  lemma ElementsGive(a: Entries, b: Entries, key: string)
    requires UniqueKeys(a) && UniqueKeys(b)
    requires forall value :: (key, value) in a <==> (key, value) in b
    ensures Get(a, key) == Get(b, key)
  {
    if Get(a, key).Some? {
      GetIff(a, key, Get(a, key).value);
      GetIff(b, key, Get(a, key).value);
    } else if Get(b, key).Some? {
      GetIff(b, key, Get(b, key).value);
      GetIff(a, key, Get(b, key).value);
    }
  }

  lemma RemoveElements(entries: Entries, key: string)
    requires UniqueKeys(entries)
    ensures UniqueKeys(Remove(entries, key))
    ensures forall e :: e in Remove(entries, key) <==> e in entries && e.0 != key
  {
    var i := IndexOf(entries, key);
    var out := Remove(entries, key);
    if i < |entries| - 1 {
      assert forall k :: 0 <= k < |out| ==> out[k] == if k == i then entries[|entries| - 1] else entries[k];
    }
    forall e | e in entries && e.0 != key ensures e in out {
      var k :| 0 <= k < |entries| && entries[k] == e;
      if i < |entries| {
        assert out[if k == |entries| - 1 then i else k] == e;
      }
    }
  }

  lemma RemoveGets(entries: Entries, key: string, k: string)
    requires UniqueKeys(entries)
    ensures Get(Remove(entries, key), k) == if k == key then None else Get(entries, k)
  {
    RemoveElements(entries, key);
    if k == key {
      GetFinds(Remove(entries, key), k);
    } else {
      ElementsGive(Remove(entries, key), entries, k);
    }
  }

  lemma RemoveIsRule(entries: Entries, key: string)
    requires IsRule(entries)
    ensures IsRule(Remove(entries, key))
  {
    RemoveElements(entries, key);
    var out := Remove(entries, key);
    forall i | 0 <= i < |out| ensures WellFormed(out[i].1) {
      assert out[i] in entries;
      var k :| 0 <= k < |entries| && entries[k] == out[i];
    }
  }

  lemma RuleKeys(entries: Entries)
    requires IsRule(entries)
    ensures UniqueKeys(entries)
  {}

  lemma {:induction false} RemoveAllGets(entries: Entries, keys: seq<string>, k: string)
    requires IsRule(entries)
    ensures IsRule(RemoveAll(entries, keys))
    ensures Get(RemoveAll(entries, keys), k) == if k in keys then None else Get(entries, k)
  {
    hide IsRule, Remove, Get;
    if keys == [] {
    } else {
      var n := |keys| - 1;
      RemoveAllGets(entries, keys[..n], k);
      RemoveIsRule(RemoveAll(entries, keys[..n]), keys[n]);
      RuleKeys(RemoveAll(entries, keys[..n]));
      RemoveGets(RemoveAll(entries, keys[..n]), keys[n], k);
      assert keys == keys[..n] + [keys[n]];
    }
  }

  lemma PutGets(entries: Entries, key: string, value: Json, k: string)
    requires IsRule(entries) && WellFormed(value)
    ensures IsRule(Put(entries, key, value))
    ensures Get(Put(entries, key, value), k) == if k == key then Some(value) else Get(entries, k)
  {
    var i := IndexOf(entries, key);
    var out := Put(entries, key, value);
    assert out[i] == (key, value);
    assert forall j :: 0 <= j < |out| && j != i ==> out[j] == entries[j] && out[j].0 != key;
    if k == key {
      GetAt(out, i);
    } else {
      forall v ensures (k, v) in out <==> (k, v) in entries {
        if (k, v) in entries {
          var j :| 0 <= j < |entries| && entries[j] == (k, v);
          assert out[j] == (k, v);
        }
      }
      ElementsGive(out, entries, k);
    }
  }

  lemma AppendGets(entries: Entries, key: string, value: Json, k: string)
    requires IsRule(entries) && WellFormed(value) && Get(entries, key).None?
    ensures IsRule(entries + [(key, value)])
    ensures Get(entries + [(key, value)], k) == if k == key then Some(value) else Get(entries, k)
  {
    GetFinds(entries, key);
    assert IndexOf(entries, key) == |entries|;
    PutGets(entries, key, value, k);
  }

  lemma {:induction false} FillGets(entries: Entries, defaults: Entries, k: string)
    requires IsRule(entries) && IsRule(defaults)
    ensures IsRule(FillDefaults(entries, defaults))
    ensures Get(FillDefaults(entries, defaults), k) ==
            if Get(entries, k).Some? then Get(entries, k) else Get(defaults, k)
  {
    if defaults == [] {
    } else {
      var n := |defaults| - 1;
      var (key, value) := defaults[n];
      var before := defaults[..n];
      FillGets(entries, before, k);
      FillGets(entries, before, key);
      assert defaults == before + [(key, value)];
      GetFinds(before, key);
      AppendGets(before, key, value, k);
      AppendGets(before, key, value, key);
      if Get(FillDefaults(entries, before), key).None? {
        AppendGets(FillDefaults(entries, before), key, value, k);
      }
    }
  }

  // ---- fields after stripping and filling ----

  function StrippedField(entries: Entries, key: string): Option<Json> {
    if key in VOLATILE_FIELDS then None
    else if key == "exceptions_list" && Get(entries, key).Some? then Some(StripReferences(Get(entries, key).value))
    else Get(entries, key)
  }

  function ComparableField(entries: Entries, key: string): Option<Json> {
    if StrippedField(entries, key).Some? then StrippedField(entries, key) else Get(SERVER_DEFAULTS, key)
  }

  predicate SameField(a: Option<Json>, b: Option<Json>) {
    if a.Some? && b.Some? then Same(a.value, b.value) else a == b
  }

  /** An object reference loses its id and nothing else; anything that is no object stays. */
  lemma StripReferenceIs(r: Json, key: string)
    requires WellFormed(r)
    ensures WellFormed(StripReference(r))
    ensures r.Obj? ==>
              && StripReference(r).Obj?
              && Get(StripReference(r).entries, key) == if key == "id" then None else Get(r.entries, key)
    ensures !r.Obj? ==> StripReference(r) == r
  {
    if r.Obj? {
      RemoveIsRule(r.entries, "id");
      RemoveGets(r.entries, "id", key);
    }
  }

  lemma StripReferencesWellFormed(value: Json)
    requires WellFormed(value)
    ensures WellFormed(StripReferences(value))
    ensures StripReferences(StripReferences(value)) == StripReferences(value)
  {
    if value.Arr? {
      forall i | 0 <= i < |value.items|
        ensures WellFormed(StripReference(value.items[i]))
        ensures StripReference(StripReference(value.items[i])) == StripReference(value.items[i])
      {
        if value.items[i].Obj? {
          RemoveIsRule(value.items[i].entries, "id");
          RemoveElements(value.items[i].entries, "id");
        }
      }
      assert StripReferences(StripReferences(value)).items == StripReferences(value).items;
    }
  }

  lemma StrippedGets(entries: Entries, k: string)
    requires IsRule(entries)
    ensures IsRule(Stripped(entries))
    ensures Get(Stripped(entries), k) == StrippedField(entries, k)
  {
    var kept := RemoveAll(entries, VOLATILE_FIELDS);
    RemoveAllGets(entries, VOLATILE_FIELDS, k);
    RemoveAllGets(entries, VOLATILE_FIELDS, "exceptions_list");
    ExceptionsListIsKept();
    if Get(kept, "exceptions_list").Some? {
      var value := Get(kept, "exceptions_list").value;
      GetFinds(kept, "exceptions_list");
      StripReferencesWellFormed(value);
      PutGets(kept, "exceptions_list", StripReferences(value), k);
    }
  }

  lemma ExceptionsListIsKept()
    ensures "exceptions_list" !in VOLATILE_FIELDS
  {
    assert |"exceptions_list"| == 15 && |"execution_summary"| == 17;
  }

  /** Length and first character, enough to tell the fixed field names apart. */
  function Code(key: string): int
    requires key != ""
  {
    1000 * |key| + key[0] as int
  }

  const DEFAULT_CODES: seq<int> :=
    [7097, 6097, 15101, 15102, 9105, 11109, 12111, 10114]
    + [20114, 15114, 18114, 11114, 5115, 16115, 6116, 2116]

  lemma DefaultShape(i: nat)
    requires i < |SERVER_DEFAULTS|
    ensures |SERVER_DEFAULTS| == |DEFAULT_CODES| == 16
    ensures SERVER_DEFAULTS[i].0 != "" && Code(SERVER_DEFAULTS[i].0) == DEFAULT_CODES[i]
    ensures WellFormed(SERVER_DEFAULTS[i].1)
  {
    assert WellFormed(Str("internal"));
  }

  lemma VolatileShape(v: nat)
    requires v < |VOLATILE_FIELDS|
    ensures VOLATILE_FIELDS[v] != "" && Code(VOLATILE_FIELDS[v]) !in DEFAULT_CODES
  {}

  lemma CodesDistinct(i: nat, j: nat)
    requires i < j < |DEFAULT_CODES|
    ensures DEFAULT_CODES[i] != DEFAULT_CODES[j]
  {}

  /** The defaults name each field once, and none that stripping removes. */
  lemma DefaultsAreRule()
    ensures IsRule(SERVER_DEFAULTS)
    ensures forall key :: key in VOLATILE_FIELDS ==> Get(SERVER_DEFAULTS, key).None?
  {
    forall i, j | 0 <= i < j < |SERVER_DEFAULTS| ensures SERVER_DEFAULTS[i].0 != SERVER_DEFAULTS[j].0 {
      DefaultShape(i);
      DefaultShape(j);
      CodesDistinct(i, j);
    }
    forall i | 0 <= i < |SERVER_DEFAULTS| ensures WellFormed(SERVER_DEFAULTS[i].1) {
      DefaultShape(i);
    }
    forall key | key in VOLATILE_FIELDS ensures Get(SERVER_DEFAULTS, key).None? {
      NotDefault(key);
    }
  }

  lemma NotDefault(key: string)
    requires key in VOLATILE_FIELDS
    ensures Get(SERVER_DEFAULTS, key).None?
  {
    var v :| 0 <= v < |VOLATILE_FIELDS| && VOLATILE_FIELDS[v] == key;
    VolatileShape(v);
    GetFinds(SERVER_DEFAULTS, key);
    forall i | 0 <= i < |SERVER_DEFAULTS| ensures SERVER_DEFAULTS[i].0 != key {
      DefaultShape(i);
    }
  }

  // ---- the two forms ----

  ghost predicate SameGet(a: Entries, b: Entries) { forall k :: SameField(Get(a, k), Get(b, k)) }

  ghost predicate SameStripped(a: Entries, b: Entries) {
    forall k :: SameField(StrippedField(a, k), StrippedField(b, k))
  }

  ghost predicate SameComparable(a: Entries, b: Entries) {
    forall k :: SameField(ComparableField(a, k), ComparableField(b, k))
  }

  lemma SameGets(a: Entries, b: Entries)
    requires IsRule(a) && IsRule(b)
    ensures Same(Obj(a), Obj(b)) <==> SameGet(a, b)
  {
    if Same(Obj(a), Obj(b)) {
      forall k ensures SameField(Get(a, k), Get(b, k)) {
        GetFinds(a, k);
        GetFinds(b, k);
      }
    } else if SameGet(a, b) {
      forall i | 0 <= i < |a| ensures Get(b, a[i].0).Some? && Same(a[i].1, Get(b, a[i].0).value) {
        GetAt(a, i);
        assert SameField(Get(a, a[i].0), Get(b, a[i].0));
      }
      forall j | 0 <= j < |b| ensures Get(a, b[j].0).Some? {
        GetAt(b, j);
        assert SameField(Get(a, b[j].0), Get(b, b[j].0));
      }
    }
  }

  lemma {:induction false} SameSymmetric(a: Json, b: Json)
    requires WellFormed(a) && WellFormed(b)
    ensures Same(a, b) <==> Same(b, a)
  {
    SortedEqualIffSame(a, b);
    SortedEqualIffSame(b, a);
  }

  lemma GetWellFormed(entries: Entries, k: string)
    requires IsRule(entries) && Get(entries, k).Some?
    ensures WellFormed(Get(entries, k).value)
  {
    GetFinds(entries, k);
  }

  /** The canonical form of every key. */
  lemma CanonicalGets(entries: Entries, k: string)
    requires IsRule(entries)
    ensures IsRule(Canonical(entries))
    ensures SameField(StrippedField(entries, k), Get(Canonical(entries), k))
    ensures StrippedField(entries, k).Some? ==> WellFormed(StrippedField(entries, k).value)
  {
    StrippedGets(entries, k);
    SortedIsSame(Obj(Stripped(entries)));
    SameGets(Stripped(entries), Canonical(entries));
    if StrippedField(entries, k).Some? {
      GetWellFormed(Stripped(entries), k);
    }
  }

  lemma ComparableGets(entries: Entries, k: string)
    requires IsRule(entries)
    ensures IsRule(Comparable(entries))
    ensures SameField(ComparableField(entries, k), Get(Comparable(entries), k))
    ensures ComparableField(entries, k).Some? ==> WellFormed(ComparableField(entries, k).value)
  {
    var filled := FillDefaults(Stripped(entries), SERVER_DEFAULTS);
    StrippedGets(entries, k);
    DefaultsAreRule();
    FillGets(Stripped(entries), SERVER_DEFAULTS, k);
    SortedIsSame(Obj(filled));
    SameGets(filled, Comparable(entries));
    if ComparableField(entries, k).Some? {
      GetWellFormed(filled, k);
    }
  }

  /** Two rules have the identical on-disk form exactly when every non-volatile field agrees. */
  lemma CanonicalEqualIff(a: Entries, b: Entries)
    requires IsRule(a) && IsRule(b)
    ensures Canonical(a) == Canonical(b) <==> SameStripped(a, b)
  {
    StrippedGets(a, "");
    StrippedGets(b, "");
    forall k ensures Get(Stripped(a), k) == StrippedField(a, k) && Get(Stripped(b), k) == StrippedField(b, k) {
      StrippedGets(a, k);
      StrippedGets(b, k);
    }
    SortedEqualIffSame(Obj(Stripped(a)), Obj(Stripped(b)));
    SameGets(Stripped(a), Stripped(b));
    SortedIsObject(Stripped(a));
    SortedIsObject(Stripped(b));
  }

  lemma SortedIsObject(entries: Entries)
    ensures Sorted(Obj(entries)) == Obj(Sorted(Obj(entries)).entries)
  {}

  /** Two rules compare equal exactly when every field agrees that is not volatile, an omitted one
      read as its server default. */
  lemma ComparableEqualIff(a: Entries, b: Entries)
    requires IsRule(a) && IsRule(b)
    ensures Comparable(a) == Comparable(b) <==> SameComparable(a, b)
  {
    var x, y := FillDefaults(Stripped(a), SERVER_DEFAULTS), FillDefaults(Stripped(b), SERVER_DEFAULTS);
    DefaultsAreRule();
    StrippedGets(a, "");
    StrippedGets(b, "");
    FillGets(Stripped(a), SERVER_DEFAULTS, "");
    FillGets(Stripped(b), SERVER_DEFAULTS, "");
    forall k ensures Get(x, k) == ComparableField(a, k) && Get(y, k) == ComparableField(b, k) {
      StrippedGets(a, k);
      StrippedGets(b, k);
      FillGets(Stripped(a), SERVER_DEFAULTS, k);
      FillGets(Stripped(b), SERVER_DEFAULTS, k);
    }
    SortedEqualIffSame(Obj(x), Obj(y));
    SameGets(x, y);
    SortedIsObject(x);
    SortedIsObject(y);
  }

  /** Removing the same key from equal objects leaves equal objects. */
  lemma StripReferenceSame(a: Json, b: Json)
    requires WellFormed(a) && WellFormed(b) && Same(a, b)
    ensures Same(StripReference(a), StripReference(b))
  {
    if a.Obj? {
      SameGets(a.entries, b.entries);
      RemoveIsRule(a.entries, "id");
      RemoveIsRule(b.entries, "id");
      var x, y := Remove(a.entries, "id"), Remove(b.entries, "id");
      forall k ensures SameField(Get(x, k), Get(y, k)) {
        RemoveGets(a.entries, "id", k);
        RemoveGets(b.entries, "id", k);
      }
      SameGets(x, y);
    }
  }

  lemma StripReferencesSame(a: Json, b: Json)
    requires WellFormed(a) && WellFormed(b) && Same(a, b)
    ensures Same(StripReferences(a), StripReferences(b))
  {
    if a.Arr? {
      forall i | 0 <= i < |a.items| ensures Same(StripReference(a.items[i]), StripReference(b.items[i])) {
        StripReferenceSame(a.items[i], b.items[i]);
      }
    }
  }

  /** Stripping what was stripped before, in any key order, changes nothing. */
  lemma StrippedFieldOfCanonical(entries: Entries, k: string)
    requires IsRule(entries)
    ensures SameField(StrippedField(Canonical(entries), k), StrippedField(entries, k))
  {
    var out := Canonical(entries);
    CanonicalGets(entries, k);
    if StrippedField(entries, k).Some? {
      var value := StrippedField(entries, k).value;
      GetWellFormed(out, k);
      SameSymmetric(value, Get(out, k).value);
      if k == "exceptions_list" {
        StripReferencesSame(Get(out, k).value, value);
        GetWellFormed(entries, k);
        StripReferencesWellFormed(Get(entries, k).value);
      }
    }
  }

  lemma CanonicalIdempotent(entries: Entries)
    requires IsRule(entries)
    ensures Canonical(Canonical(entries)) == Canonical(entries)
  {
    CanonicalGets(entries, "");
    forall k ensures SameField(StrippedField(Canonical(entries), k), StrippedField(entries, k)) {
      StrippedFieldOfCanonical(entries, k);
    }
    CanonicalEqualIff(Canonical(entries), entries);
  }

  /** Pulling a rule does not change how it compares. */
  lemma ComparableOfCanonical(entries: Entries)
    requires IsRule(entries)
    ensures Comparable(Canonical(entries)) == Comparable(entries)
  {
    CanonicalGets(entries, "");
    DefaultsAreRule();
    forall k ensures SameField(ComparableField(Canonical(entries), k), ComparableField(entries, k)) {
      StrippedFieldOfCanonical(entries, k);
      DefaultSame(k);
    }
    ComparableEqualIff(Canonical(entries), entries);
  }

  lemma DefaultSame(k: string)
    ensures SameField(Get(SERVER_DEFAULTS, k), Get(SERVER_DEFAULTS, k))
  {
    DefaultsAreRule();
    SameGets(SERVER_DEFAULTS, SERVER_DEFAULTS);
    SortedEqualIffSame(Obj(SERVER_DEFAULTS), Obj(SERVER_DEFAULTS));
  }

  lemma ComparableFieldKept(entries: Entries, k: string)
    requires IsRule(entries)
    ensures SameField(ComparableField(Comparable(entries), k), ComparableField(entries, k))
  {
    hide Comparable, WellFormed;
    var out := Comparable(entries);
    ComparableGets(entries, k);
    DefaultsAreRule();
    DefaultSame(k);
    if ComparableField(entries, k).Some? {
      var value := ComparableField(entries, k).value;
      GetWellFormed(out, k);
      SameSymmetric(value, Get(out, k).value);
      if k == "exceptions_list" {
        StripReferencesSame(Get(out, k).value, value);
        StrippedTwice(entries);
      }
    }
  }

  lemma ComparableIdempotent(entries: Entries)
    requires IsRule(entries)
    ensures Comparable(Comparable(entries)) == Comparable(entries)
  {
    hide IsRule, SameField, ComparableField;
    ComparableGets(entries, "");
    forall k ensures SameField(ComparableField(Comparable(entries), k), ComparableField(entries, k)) {
      ComparableFieldKept(entries, k);
    }
    ComparableEqualIff(Comparable(entries), entries);
  }

  lemma StrippedTwice(entries: Entries)
    requires IsRule(entries) && ComparableField(entries, "exceptions_list").Some?
    ensures var value := ComparableField(entries, "exceptions_list").value; StripReferences(value) == value
  {
    if Get(entries, "exceptions_list").Some? {
      ExceptionsListIsKept();
      GetWellFormed(entries, "exceptions_list");
      StripReferencesWellFormed(Get(entries, "exceptions_list").value);
    } else {
      var value := ComparableField(entries, "exceptions_list").value;
      DefaultsAreRule();
      GetAt(SERVER_DEFAULTS, 2);
      assert StripReferences(value).items == [];
    }
  }

  // ---- the forms as the program computes them ----

  class Rule {
    var entries: Entries

    constructor (entries: Entries)
      ensures this.entries == entries
    {
      this.entries := entries;
    }

    method RemoveFields(keys: seq<string>)
      modifies this
      ensures entries == RemoveAll(old(entries), keys)
    {
      for n := 0 to |keys|
        invariant entries == RemoveAll(old(entries), keys[..n])
      {
        assert keys[..n + 1][..n] == keys[..n];
        entries := Remove(entries, keys[n]);
      }
      assert keys[..|keys|] == keys;
    }

    method StripReferenceIds()
      modifies this
      ensures entries == StripExceptionIds(old(entries))
    {
      var list := Get(entries, "exceptions_list");
      if list.Some? && list.value.Arr? {
        var refs := list.value.items;
        for n := 0 to |refs|
          invariant |refs| == |list.value.items|
          invariant forall i :: 0 <= i < |refs| ==>
                                  refs[i] == if i < n then StripReference(list.value.items[i]) else list.value.items[i]
        {
          if refs[n].Obj? {
            refs := refs[n := Obj(Remove(refs[n].entries, "id"))];
          }
        }
        assert Arr(refs).items == StripReferences(list.value).items;
        entries := Put(entries, "exceptions_list", Arr(refs));
      }
    }

    method AddDefaults()
      modifies this
      ensures entries == FillDefaults(old(entries), SERVER_DEFAULTS)
    {
      for n := 0 to |SERVER_DEFAULTS|
        invariant entries == FillDefaults(old(entries), SERVER_DEFAULTS[..n])
      {
        assert SERVER_DEFAULTS[..n + 1][..n] == SERVER_DEFAULTS[..n];
        var (key, value) := SERVER_DEFAULTS[n];
        if Get(entries, key).None? {
          entries := entries + [(key, value)];
        }
      }
      assert SERVER_DEFAULTS[..|SERVER_DEFAULTS|] == SERVER_DEFAULTS;
    }

    /** The on-disk form; this rule stays as it is. */
    method ToCanonical() returns (form: Entries)
      ensures form == Canonical(entries)
    {
      var copy := new Rule(entries);
      copy.RemoveFields(VOLATILE_FIELDS);
      copy.StripReferenceIds();
      form := Sorted(Obj(copy.entries)).entries;
    }

    /** The comparison form; this rule stays as it is. */
    method ToComparable() returns (form: Entries)
      ensures form == Comparable(entries)
    {
      var copy := new Rule(entries);
      copy.RemoveFields(VOLATILE_FIELDS);
      copy.StripReferenceIds();
      copy.AddDefaults();
      form := Sorted(Obj(copy.entries)).entries;
    }
  }
}
