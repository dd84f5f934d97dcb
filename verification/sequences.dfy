/** Sequences of sequences and split texts, for every module that cuts one up. */
module Sequences {

  function Concat<T>(parts: seq<seq<T>>): seq<T> {
    if parts == [] then [] else parts[0] + Concat(parts[1..])
  }

  lemma {:induction false} ConcatPush<T>(parts: seq<seq<T>>, last: seq<T>)
    ensures Concat(parts + [last]) == Concat(parts) + last
  {
    if parts == [] {
      assert [last][1..] == [];
    } else {
      assert (parts + [last])[1..] == parts[1..] + [last];
      ConcatPush(parts[1..], last);
    }
  }

  // ---- splitting texts ----

  /** How many leading characters satisfy `p`. */
  function Span(s: string, p: char -> bool): nat {
    if s == [] || !p(s[0]) then 0 else 1 + Span(s[1..], p)
  }

  lemma {:induction false} SpanIs(head: string, tail: string, p: char -> bool)
    requires forall i :: 0 <= i < |head| ==> p(head[i])
    requires tail == [] || !p(tail[0])
    ensures Span(head + tail, p) == |head|
  {
    if head == [] {
      assert head + tail == tail;
    } else {
      assert (head + tail)[1..] == head[1..] + tail;
      SpanIs(head[1..], tail, p);
    }
  }

  /** Two strings that begin with a run of `p` followed by something else split the same way. */
  lemma SameSplit(a: string, x: string, b: string, y: string, p: char -> bool)
    requires a + x == b + y
    requires forall i :: 0 <= i < |a| ==> p(a[i])
    requires forall i :: 0 <= i < |b| ==> p(b[i])
    requires x == [] || !p(x[0])
    requires y == [] || !p(y[0])
    ensures a == b && x == y
  {
    SpanIs(a, x, p);
    SpanIs(b, y, p);
    assert (a + x)[..|a|] == a && (b + y)[..|b|] == b;
    assert (a + x)[|a|..] == x && (b + y)[|b|..] == y;
  }

  lemma SameTail(head: string, x: string, y: string)
    requires head + x == head + y
    ensures x == y
  {
    assert (head + x)[|head|..] == x && (head + y)[|head|..] == y;
  }
}
