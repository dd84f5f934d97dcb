/** The order of Rust strings: by code points, a proper prefix first. */
module StringOrder {

  predicate Below(a: string, b: string)
    decreases |a|
  {
    b != [] && (a == [] || a[0] < b[0] || (a[0] == b[0] && Below(a[1..], b[1..])))
  }

  lemma {:induction false} BelowIrreflexive(a: string)
    ensures !Below(a, a)
  {
    if a == [] {
    } else {
      BelowIrreflexive(a[1..]);
    }
  }

  lemma {:induction false} BelowTransitive(a: string, b: string, c: string)
    requires Below(a, b) && Below(b, c)
    ensures Below(a, c)
  {
    if a == [] {
    } else if a[0] == b[0] == c[0] {
      BelowTransitive(a[1..], b[1..], c[1..]);
    }
  }

  lemma {:induction false} BelowTotal(a: string, b: string)
    ensures Below(a, b) || a == b || Below(b, a)
  {
    if a == [] || b == [] {
    } else if a[0] == b[0] {
      BelowTotal(a[1..], b[1..]);
      assert a == [a[0]] + a[1..] && b == [b[0]] + b[1..];
    }
  }

  /** The two strings agree up to `k`, where `a` ends or has the smaller character. */
  predicate BelowAt(a: string, b: string, k: nat) {
    k <= |a| && k < |b| && a[..k] == b[..k] && (k < |a| ==> a[k] < b[k])
  }

  /** The first difference decides. */
  lemma {:induction false} BelowIff(a: string, b: string)
    ensures Below(a, b) <==> exists k: nat :: BelowAt(a, b, k)
  {
    if Below(a, b) {
      if a == [] || a[0] < b[0] {
        assert BelowAt(a, b, 0);
      } else {
        BelowIff(a[1..], b[1..]);
        var k: nat :| BelowAt(a[1..], b[1..], k);
        assert a[..k + 1] == [a[0]] + a[1..][..k] && b[..k + 1] == [b[0]] + b[1..][..k];
        assert BelowAt(a, b, k + 1);
      }
    } else if k: nat :| BelowAt(a, b, k) {
      if k > 0 {
        assert a[0] == a[..k][0] == b[..k][0] == b[0];
        assert a[1..][..k - 1] == a[..k][1..] && b[1..][..k - 1] == b[..k][1..];
        assert BelowAt(a[1..], b[1..], k - 1);
        BelowIff(a[1..], b[1..]);
      }
      assert false;
    }
  }

  /** Strictly increasing, hence without duplicates. */
  predicate Ascending(ids: seq<string>) {
    forall i, j :: 0 <= i < j < |ids| ==> Below(ids[i], ids[j])
  }

  lemma AscendingPush(ids: seq<string>, id: string)
    requires Ascending(ids) && (ids != [] ==> Below(ids[|ids| - 1], id))
    ensures Ascending(ids + [id])
  {
    forall i | 0 <= i < |ids| ensures Below(ids[i], id) {
      if i < |ids| - 1 {
        BelowTransitive(ids[i], ids[|ids| - 1], id);
      }
    }
  }

  predicate AscendingBy<T>(xs: seq<T>, key: T -> string) {
    forall i, j :: 0 <= i < j < |xs| ==> Below(key(xs[i]), key(xs[j]))
  }

  ghost predicate DistinctBy<T>(xs: seq<T>, key: T -> string) {
    forall i, j :: 0 <= i < j < |xs| ==> key(xs[i]) != key(xs[j])
  }

  function InsertBy<T>(sorted: seq<T>, x: T, key: T -> string): seq<T> {
    if sorted == [] || Below(key(x), key(sorted[0])) then [x] + sorted
    else [sorted[0]] + InsertBy(sorted[1..], x, key)
  }

  function SortBy<T>(xs: seq<T>, key: T -> string): seq<T> {
    if xs == [] then [] else InsertBy(SortBy(xs[..|xs| - 1], key), xs[|xs| - 1], key)
  }

  lemma {:induction false} InsertContents<T>(sorted: seq<T>, x: T, key: T -> string)
    ensures multiset(InsertBy(sorted, x, key)) == multiset(sorted) + multiset{x}
  {
    if !(sorted == [] || Below(key(x), key(sorted[0]))) {
      InsertContents(sorted[1..], x, key);
      assert sorted == [sorted[0]] + sorted[1..];
    }
  }

  lemma {:induction false} InsertOrder<T>(sorted: seq<T>, x: T, key: T -> string)
    requires AscendingBy(sorted, key) && forall y :: y in sorted ==> key(y) != key(x)
    ensures AscendingBy(InsertBy(sorted, x, key), key)
  {
    if sorted == [] {
    } else if Below(key(x), key(sorted[0])) {
      forall j | 0 <= j < |sorted| ensures Below(key(x), key(sorted[j])) {
        if j > 0 {
          BelowTransitive(key(x), key(sorted[0]), key(sorted[j]));
        }
      }
    } else {
      BelowTotal(key(x), key(sorted[0]));
      var rest := InsertBy(sorted[1..], x, key);
      InsertOrder(sorted[1..], x, key);
      InsertContents(sorted[1..], x, key);
      forall j | 0 <= j < |rest| ensures Below(key(sorted[0]), key(rest[j])) {
        assert rest[j] in multiset(rest);
        assert rest[j] == x || rest[j] in sorted[1..];
      }
    }
  }

  lemma {:induction false} SortContents<T>(xs: seq<T>, key: T -> string)
    ensures multiset(SortBy(xs, key)) == multiset(xs)
  {
    if xs == [] {
    } else {
      SortContents(xs[..|xs| - 1], key);
      InsertContents(SortBy(xs[..|xs| - 1], key), xs[|xs| - 1], key);
      assert xs == xs[..|xs| - 1] + [xs[|xs| - 1]];
    }
  }

  lemma {:induction false} SortOrder<T>(xs: seq<T>, key: T -> string)
    requires DistinctBy(xs, key)
    ensures AscendingBy(SortBy(xs, key), key)
  {
    if xs == [] {
    } else {
      var k := |xs| - 1;
      var sorted := SortBy(xs[..k], key);
      SortOrder(xs[..k], key);
      SortContents(xs[..k], key);
      forall y | y in sorted ensures key(y) != key(xs[k]) {
        assert y in multiset(sorted);
        assert y in xs[..k];
      }
      InsertOrder(sorted, xs[k], key);
    }
  }

  /** An ascending list is determined by its elements. */
  lemma {:induction false} AscendingDetermined<T>(a: seq<T>, b: seq<T>, key: T -> string)
    requires AscendingBy(a, key) && AscendingBy(b, key) && forall x :: x in a <==> x in b
    ensures a == b
  {
    if a != [] {
      assert a[0] in a;
    }
    if b != [] {
      assert b[0] in b;
    }
    if a == [] {
    } else {
      FirstIsLeast(a, b[0], key);
      FirstIsLeast(b, a[0], key);
      if Below(key(a[0]), key(b[0])) && Below(key(b[0]), key(a[0])) {
        BelowTransitive(key(a[0]), key(b[0]), key(a[0]));
      }
      BelowIrreflexive(key(a[0]));
      assert a[0] == b[0];
      RestElements(a, key);
      RestElements(b, key);
      AscendingDetermined(a[1..], b[1..], key);
    }
  }

  lemma FirstIsLeast<T>(a: seq<T>, x: T, key: T -> string)
    requires AscendingBy(a, key) && x in a
    ensures x == a[0] || Below(key(a[0]), key(x))
  {
    var i :| 0 <= i < |a| && a[i] == x;
    if i > 0 {
      assert Below(key(a[0]), key(a[i]));
    }
  }

  lemma RestElements<T>(a: seq<T>, key: T -> string)
    requires AscendingBy(a, key) && a != []
    ensures AscendingBy(a[1..], key) && forall x :: x in a[1..] <==> x in a && x != a[0]
  {
    BelowIrreflexive(key(a[0]));
    forall i | 1 <= i < |a| ensures a[i] != a[0] {
      assert Below(key(a[0]), key(a[i]));
    }
    assert a == [a[0]] + a[1..];
  }
}
