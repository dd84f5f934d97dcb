/** Sorting object keys at every depth, and equality that ignores their order. */
module KeyOrder {
  import opened Wrappers
  import opened StringOrder
  import opened JsonTree

  function KeyOf(entry: (string, Json)): string { entry.0 }

  function Sorted(j: Json): Json {
    match j
    case Arr(items) => Arr(seq(|items|, i requires 0 <= i < |items| => Sorted(items[i])))
    case Obj(entries) =>
      Obj(SortBy(seq(|entries|, i requires 0 <= i < |entries| => (entries[i].0, Sorted(entries[i].1))), KeyOf))
    case _ => j
  }

  /** Equal up to the order of object keys at every depth: `PartialEq` of `serde_json::Value`. */
  predicate Same(a: Json, b: Json) {
    match (a, b)
    case (Arr(items), Arr(others)) =>
      |items| == |others| && forall i :: 0 <= i < |items| ==> Same(items[i], others[i])
    case (Obj(entries), Obj(others)) =>
      && (forall i :: 0 <= i < |entries| ==>
            Get(others, entries[i].0).Some? && Same(entries[i].1, Get(others, entries[i].0).value))
      && (forall j :: 0 <= j < |others| ==> Get(entries, others[j].0).Some?)
    case _ => a == b
  }

  /** The entries of an object with every value sorted, in the original key order. */
  function SortedValues(entries: seq<(string, Json)>): (out: seq<(string, Json)>)
    ensures |out| == |entries|
    ensures forall i :: 0 <= i < |out| ==> out[i] == (entries[i].0, Sorted(entries[i].1))
  {
    seq(|entries|, i requires 0 <= i < |entries| => (entries[i].0, Sorted(entries[i].1)))
  }

  lemma SortedObject(entries: seq<(string, Json)>)
    requires UniqueKeys(entries)
    ensures Sorted(Obj(entries)) == Obj(SortBy(SortedValues(entries), KeyOf))
    ensures AscendingBy(SortBy(SortedValues(entries), KeyOf), KeyOf)
    ensures forall e :: e in SortBy(SortedValues(entries), KeyOf) <==> e in SortedValues(entries)
    ensures UniqueKeys(SortBy(SortedValues(entries), KeyOf))
  {
    var values := SortedValues(entries);
    assert values == seq(|entries|, i requires 0 <= i < |entries| => (entries[i].0, Sorted(entries[i].1)));
    SortOrder(values, KeyOf);
    SortContents(values, KeyOf);
    forall e ensures e in SortBy(values, KeyOf) <==> e in values {
      assert e in SortBy(values, KeyOf) <==> e in multiset(SortBy(values, KeyOf));
    }
    AscendingUnique(SortBy(values, KeyOf));
  }

  lemma AscendingUnique(entries: seq<(string, Json)>)
    requires AscendingBy(entries, KeyOf)
    ensures UniqueKeys(entries)
  {
    forall i, j | 0 <= i < j < |entries| ensures entries[i].0 != entries[j].0 {
      assert Below(KeyOf(entries[i]), KeyOf(entries[j]));
      BelowIrreflexive(entries[i].0);
    }
  }

  /** Sorting keeps well-formedness and changes nothing but key order. */
  lemma {:induction false} SortedIsSame(j: Json)
    requires WellFormed(j)
    ensures WellFormed(Sorted(j)) && Same(j, Sorted(j))
  {
    match j
    case Arr(items) =>
      forall i | 0 <= i < |items| ensures WellFormed(Sorted(items[i])) && Same(items[i], Sorted(items[i])) {
        SortedIsSame(items[i]);
      }
    case Obj(entries) =>
      var values := SortedValues(entries);
      var sorted := SortBy(values, KeyOf);
      SortedObject(entries);
      forall i | 0 <= i < |entries|
        ensures Get(sorted, entries[i].0) == Some(Sorted(entries[i].1)) && Same(entries[i].1, Sorted(entries[i].1))
        ensures WellFormed(values[i].1)
      {
        SortedIsSame(entries[i].1);
        assert values[i] in sorted;
        var k :| 0 <= k < |sorted| && sorted[k] == values[i];
        GetAt(sorted, k);
      }
      forall k | 0 <= k < |sorted| ensures Get(entries, sorted[k].0).Some? && WellFormed(sorted[k].1) {
        assert sorted[k] in values;
        var i :| 0 <= i < |values| && values[i] == sorted[k];
        GetAt(entries, i);
      }
    case _ =>
  }

  /** Two values have the identical sorted form exactly when they differ in key order only. */
  lemma {:induction false} SortedEqualIffSame(a: Json, b: Json)
    requires WellFormed(a) && WellFormed(b)
    ensures Sorted(a) == Sorted(b) <==> Same(a, b)
  {
    match (a, b)
    case (Arr(items), Arr(others)) =>
      if |items| == |others| {
        forall i | 0 <= i < |items| ensures Sorted(items[i]) == Sorted(others[i]) <==> Same(items[i], others[i]) {
          SortedEqualIffSame(items[i], others[i]);
        }
        SortedArrays(items, others);
      } else {
        assert |Sorted(a).items| == |items| && |Sorted(b).items| == |others|;
      }
    case (Obj(entries), Obj(others)) =>
      SortedObject(entries);
      SortedObject(others);
      forall i, k | 0 <= i < |entries| && 0 <= k < |others|
        ensures Sorted(entries[i].1) == Sorted(others[k].1) <==> Same(entries[i].1, others[k].1)
      {
        SortedEqualIffSame(entries[i].1, others[k].1);
      }
      if Same(a, b) {
        SameElements(entries, others);
        AscendingDetermined(SortBy(SortedValues(entries), KeyOf), SortBy(SortedValues(others), KeyOf), KeyOf);
      } else if Sorted(a) == Sorted(b) {
        ElementsSame(entries, others);
      }
    case _ =>
  }

  lemma SortedArrays(items: seq<Json>, others: seq<Json>)
    requires |items| == |others|
    ensures Sorted(Arr(items)) == Sorted(Arr(others)) <==>
            forall i :: 0 <= i < |items| ==> Sorted(items[i]) == Sorted(others[i])
  {
    var a, b := Sorted(Arr(items)).items, Sorted(Arr(others)).items;
    assert forall i :: 0 <= i < |items| ==> a[i] == Sorted(items[i]) && b[i] == Sorted(others[i]);
  }

  lemma SameElements(entries: seq<(string, Json)>, others: seq<(string, Json)>)
    requires UniqueKeys(entries) && UniqueKeys(others) && Same(Obj(entries), Obj(others))
    requires forall i, k :: 0 <= i < |entries| && 0 <= k < |others| ==>
                              (Sorted(entries[i].1) == Sorted(others[k].1) <==> Same(entries[i].1, others[k].1))
    ensures forall e :: e in SortedValues(entries) <==> e in SortedValues(others)
  {
    forall e | e in SortedValues(entries) ensures e in SortedValues(others) {
      var i :| 0 <= i < |entries| && SortedValues(entries)[i] == e;
      GetFinds(others, entries[i].0);
      var k :| 0 <= k < |others| && others[k] == (entries[i].0, Get(others, entries[i].0).value);
      assert SortedValues(others)[k] == e;
    }
    forall e | e in SortedValues(others) ensures e in SortedValues(entries) {
      var k :| 0 <= k < |others| && SortedValues(others)[k] == e;
      GetFinds(entries, others[k].0);
      var i :| 0 <= i < |entries| && entries[i] == (others[k].0, Get(entries, others[k].0).value);
      GetAt(others, k);
      assert SortedValues(entries)[i] == e;
    }
  }

  lemma ElementsSame(entries: seq<(string, Json)>, others: seq<(string, Json)>)
    requires UniqueKeys(entries) && UniqueKeys(others)
    requires forall e :: e in SortedValues(entries) <==> e in SortedValues(others)
    requires forall i, k :: 0 <= i < |entries| && 0 <= k < |others| ==>
                              (Sorted(entries[i].1) == Sorted(others[k].1) <==> Same(entries[i].1, others[k].1))
    ensures Same(Obj(entries), Obj(others))
  {
    forall i | 0 <= i < |entries|
      ensures Get(others, entries[i].0).Some? && Same(entries[i].1, Get(others, entries[i].0).value)
    {
      assert SortedValues(entries)[i] in SortedValues(others);
      var k :| 0 <= k < |others| && SortedValues(others)[k] == SortedValues(entries)[i];
      GetAt(others, k);
    }
    forall k | 0 <= k < |others| ensures Get(entries, others[k].0).Some? {
      assert SortedValues(others)[k] in SortedValues(entries);
      var i :| 0 <= i < |entries| && SortedValues(entries)[i] == SortedValues(others)[k];
      GetAt(entries, i);
    }
  }

  lemma SortedIdempotent(j: Json)
    requires WellFormed(j)
    ensures Sorted(Sorted(j)) == Sorted(j)
  {
    SortedIsSame(j);
    SortedEqualIffSame(j, Sorted(j));
  }
}
