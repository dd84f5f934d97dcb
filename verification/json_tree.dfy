/** Parsed JSON that keeps the order of object keys, as `serde_json` does with `preserve_order`. */
module JsonTree {
  import opened Wrappers

  datatype Json =
    | Null | Bool(flag: bool) | Number(lexeme: string) | Str(text: string)
    | Arr(items: seq<Json>) | Obj(entries: seq<(string, Json)>)

  /** Keys are unique in every object, at every depth. */
  predicate WellFormed(j: Json) {
    match j
    case Arr(items) => forall i :: 0 <= i < |items| ==> WellFormed(items[i])
    case Obj(entries) =>
      && UniqueKeys(entries)
      && forall i :: 0 <= i < |entries| ==> WellFormed(entries[i].1)
    case _ => true
  }

  predicate UniqueKeys(entries: seq<(string, Json)>) {
    forall i, j :: 0 <= i < j < |entries| ==> entries[i].0 != entries[j].0
  }

  function Get(entries: seq<(string, Json)>, key: string): Option<Json> {
    if entries == [] then None
    else if entries[0].0 == key then Some(entries[0].1)
    else Get(entries[1..], key)
  }

  lemma {:induction false} GetFinds(entries: seq<(string, Json)>, key: string)
    ensures match Get(entries, key)
            case None => forall i :: 0 <= i < |entries| ==> entries[i].0 != key
            case Some(value) => exists i :: 0 <= i < |entries| && entries[i] == (key, value)
  {
    if entries == [] {
    } else if entries[0].0 == key {
      assert entries[0] == (key, entries[0].1);
    } else {
      GetFinds(entries[1..], key);
      if Get(entries, key).Some? {
        var i :| 0 <= i < |entries[1..]| && entries[1..][i] == (key, Get(entries, key).value);
        assert entries[i + 1] == (key, Get(entries, key).value);
      } else {
        forall i | 0 <= i < |entries| ensures entries[i].0 != key {
          assert i > 0 ==> entries[1..][i - 1].0 != key;
        }
      }
    }
  }

  lemma {:induction false} GetAt(entries: seq<(string, Json)>, i: nat)
    requires UniqueKeys(entries) && i < |entries|
    ensures Get(entries, entries[i].0) == Some(entries[i].1)
  {
    if i == 0 {
    } else {
      GetAt(entries[1..], i - 1);
    }
  }
}
