/** The audit of what a dashboard write lost: `subset_losses` of `dashboards.rs`. */
module LossAudit {
  import opened Wrappers
  import opened Sequences
  import opened Decimal
  import opened JsonTree

  datatype Step = Key(key: string) | Index(index: nat)

  datatype Loss = Loss(position: seq<Step>, path: string, expected: Json, actual: Option<Json>)

  function Find(items: seq<Json>, index: nat): Option<Json> {
    if index < |items| then Some(items[index]) else None
  }

  function Losses(expected: Json, actual: Option<Json>, position: seq<Step>): seq<Loss>
    decreases expected, 1, 0
  {
    if actual.None? then [Loss(position, Path(position), expected, None)]
    else match (expected, actual.value)
      case (Obj(entries), Obj(others)) => EntryLosses(expected, entries, others, position, |entries|)
      case (Arr(items), Arr(others)) => ItemLosses(expected, items, others, position, |items|)
      case _ => if expected == actual.value then [] else [Loss(position, Path(position), expected, actual)]
  }

  function EntryLosses(
    whole: Json, entries: seq<(string, Json)>, others: seq<(string, Json)>, position: seq<Step>, n: nat): seq<Loss>
    requires whole == Obj(entries) && n <= |entries|
    decreases whole, 0, n
  {
    if n == 0 then []
    else
      var (key, value) := entries[n - 1];
      EntryLosses(whole, entries, others, position, n - 1) + Losses(value, Get(others, key), position + [Key(key)])
  }

  function ItemLosses(whole: Json, items: seq<Json>, others: seq<Json>, position: seq<Step>, n: nat): seq<Loss>
    requires whole == Arr(items) && n <= |items|
    decreases whole, 0, n
  {
    if n == 0 then []
    else
      ItemLosses(whole, items, others, position, n - 1) +
      Losses(items[n - 1], Find(others, n - 1), position + [Index(n - 1)])
  }

  function Path(position: seq<Step>): string {
    if position == [] then "$" else Path(position[..|position| - 1]) + RenderStep(position[|position| - 1])
  }

  function RenderStep(step: Step): string {
    match step
    case Key(key) => "." + PathKey(key)
    case Index(index) => "[" + Digits(index) + "]"
  }

  predicate IsIdentifierChar(c: char) {
    c == '_' || 'a' <= c <= 'z' || 'A' <= c <= 'Z' || IsDigit(c)
  }

  predicate IsPlainKey(key: string) {
    forall i :: 0 <= i < |key| ==> IsIdentifierChar(key[i]) && (i == 0 ==> !IsDigit(key[i]))
  }

  function Replace(s: string, c: char, into: string): string {
    if s == [] then [] else (if s[0] == c then into else [s[0]]) + Replace(s[1..], c, into)
  }

  function PathKey(key: string): string {
    if IsPlainKey(key) then key
    else "['" + Replace(Replace(key, '\\', "\\\\"), '\'', "\\'") + "']"
  }

  /** `expected` is found in `actual`: objects by key, arrays by index, everything else equal. */
  predicate Contained(expected: Json, actual: Json) {
    match (expected, actual)
    case (Obj(entries), Obj(others)) =>
      forall i :: 0 <= i < |entries| ==>
                    Get(others, entries[i].0).Some? && Contained(entries[i].1, Get(others, entries[i].0).value)
    case (Arr(items), Arr(others)) =>
      |items| <= |others| && forall i :: 0 <= i < |items| ==> Contained(items[i], others[i])
    case _ => expected == actual
  }

  /** What is at a position, if anything. */
  function At(j: Json, position: seq<Step>): Option<Json>
    decreases |position|
  {
    if position == [] then Some(j)
    else match (j, position[0])
      case (Obj(entries), Key(key)) =>
        if Get(entries, key).None? then None else At(Get(entries, key).value, position[1..])
      case (Arr(items), Index(i)) => if i < |items| then At(items[i], position[1..]) else None
      case _ => None
  }

  predicate SameContainer(a: Json, b: Json) { (a.Obj? && b.Obj?) || (a.Arr? && b.Arr?) }

  // ---- the audit as the program runs it ----

  method CollectLosses(expected: Json, actual: Option<Json>, position: seq<Step>, losses: seq<Loss>)
    returns (all: seq<Loss>)
    ensures all == losses + Losses(expected, actual, position)
    decreases expected
  {
    if actual.None? {
      return losses + [Loss(position, Path(position), expected, None)];
    }
    all := losses;
    match (expected, actual.value) {
      case (Obj(entries), Obj(others)) =>
        for n := 0 to |entries|
          invariant all == losses + EntryLosses(expected, entries, others, position, n)
        {
          all := CollectLosses(entries[n].1, Get(others, entries[n].0), position + [Key(entries[n].0)], all);
        }
      case (Arr(items), Arr(others)) =>
        for n := 0 to |items|
          invariant all == losses + ItemLosses(expected, items, others, position, n)
        {
          all := CollectLosses(items[n], Find(others, n), position + [Index(n)], all);
        }
      case _ =>
        if expected != actual.value {
          all := all + [Loss(position, Path(position), expected, actual)];
        }
    }
  }

  method SubsetLosses(expected: Json, actual: Json) returns (losses: seq<Loss>)
    ensures losses == Losses(expected, Some(actual), [])
  {
    losses := CollectLosses(expected, Some(actual), [], []);
  }

  // ---- containment ----

  /** The audit is silent exactly when the accepted value contains the submitted one. */
  lemma {:induction false} SilentIffContained(expected: Json, actual: Json, position: seq<Step>)
    ensures Losses(expected, Some(actual), position) == [] <==> Contained(expected, actual)
    decreases expected, 1, 0
  {
    hide Path, Get;
    match (expected, actual)
    case (Obj(entries), Obj(others)) => SilentEntries(expected, entries, others, position, |entries|);
    case (Arr(items), Arr(others)) => SilentItems(expected, items, others, position, |items|);
    case _ =>
  }

  lemma {:induction false} SilentEntries(
    whole: Json, entries: seq<(string, Json)>, others: seq<(string, Json)>, position: seq<Step>, n: nat)
    requires whole == Obj(entries) && n <= |entries|
    ensures EntryLosses(whole, entries, others, position, n) == [] <==>
            forall i :: 0 <= i < n ==>
                          Get(others, entries[i].0).Some? && Contained(entries[i].1, Get(others, entries[i].0).value)
    decreases whole, 0, n
  {
    if n == 0 {
    } else {
      SilentEntries(whole, entries, others, position, n - 1);
      var (key, value) := entries[n - 1];
      if Get(others, key).Some? {
        SilentIffContained(value, Get(others, key).value, position + [Key(key)]);
      }
    }
  }

  lemma {:induction false} SilentItems(whole: Json, items: seq<Json>, others: seq<Json>, position: seq<Step>, n: nat)
    requires whole == Arr(items) && n <= |items|
    ensures ItemLosses(whole, items, others, position, n) == [] <==>
            n <= |others| && forall i :: 0 <= i < n ==> Contained(items[i], others[i])
    decreases whole, 0, n
  {
    if n == 0 {
    } else {
      SilentItems(whole, items, others, position, n - 1);
      if n <= |others| {
        SilentIffContained(items[n - 1], others[n - 1], position + [Index(n - 1)]);
      }
    }
  }

  lemma {:induction false} ContainedReflexive(j: Json)
    requires WellFormed(j)
    ensures Contained(j, j)
  {
    match j
    case Obj(entries) =>
      forall i | 0 <= i < |entries|
        ensures Get(entries, entries[i].0).Some? && Contained(entries[i].1, Get(entries, entries[i].0).value)
      {
        GetAt(entries, i);
        ContainedReflexive(entries[i].1);
      }
    case Arr(items) =>
      forall i | 0 <= i < |items| ensures Contained(items[i], items[i]) {
        ContainedReflexive(items[i]);
      }
    case _ =>
  }

  lemma {:induction false} ContainedTransitive(a: Json, b: Json, c: Json)
    requires Contained(a, b) && Contained(b, c)
    ensures Contained(a, c)
  {
    match (a, b, c)
    case (Obj(entries), Obj(middle), Obj(others)) =>
      forall i | 0 <= i < |entries|
        ensures Get(others, entries[i].0).Some? && Contained(entries[i].1, Get(others, entries[i].0).value)
      {
        var key := entries[i].0;
        GetFinds(middle, key);
        var j :| 0 <= j < |middle| && middle[j] == (key, Get(middle, key).value);
        ContainedTransitive(entries[i].1, middle[j].1, Get(others, middle[j].0).value);
      }
    case (Arr(items), Arr(_), Arr(others)) =>
      forall i | 0 <= i < |items| ensures Contained(items[i], others[i]) {
        ContainedTransitive(items[i], b.items[i], others[i]);
      }
    case _ =>
  }

  // ---- exactness ----

  function AtIn(j: Option<Json>, position: seq<Step>): Option<Json> {
    if j.None? then None else At(j.value, position)
  }

  function Child(j: Json, step: Step): Option<Json> {
    match (j, step)
    case (Obj(entries), Key(key)) => Get(entries, key)
    case (Arr(items), Index(i)) => Find(items, i)
    case _ => None
  }

  /** The submitted value has something at `position` that the accepted one lacks or has otherwise,
      while everything above it is a container of the same kind on both sides. */
  predicate Mismatch(expected: Json, actual: Option<Json>, position: seq<Step>)
    decreases |position|
  {
    if position == [] then
      actual.None? || (!SameContainer(expected, actual.value) && expected != actual.value)
    else
      && actual.Some? && SameContainer(expected, actual.value)
      && Child(expected, position[0]).Some?
      && Mismatch(Child(expected, position[0]).value, Child(actual.value, position[0]), position[1..])
  }

  lemma {:induction false} MismatchIsThere(expected: Json, actual: Option<Json>, position: seq<Step>)
    requires Mismatch(expected, actual, position)
    ensures At(expected, position).Some?
    ensures AtIn(actual, position) != At(expected, position)
    decreases |position|
  {
    if position == [] {
    } else {
      MismatchIsThere(Child(expected, position[0]).value, Child(actual.value, position[0]), position[1..]);
    }
  }

  function LossAt(expected: Json, actual: Option<Json>, base: seq<Step>, position: seq<Step>): Loss
    requires Mismatch(expected, actual, position)
  {
    MismatchIsThere(expected, actual, position);
    Loss(base + position, Path(base + position), At(expected, position).value, AtIn(actual, position))
  }

  lemma LossAtChild(expected: Json, actual: Option<Json>, base: seq<Step>, position: seq<Step>)
    requires position != [] && Mismatch(expected, actual, position)
    ensures LossAt(expected, actual, base, position) ==
            LossAt(Child(expected, position[0]).value, Child(actual.value, position[0]), base + [position[0]],
              position[1..])
  {
    hide Path;
    assert base + position == base + [position[0]] + position[1..];
  }

  /** Every mismatch is reported. */
  lemma {:induction false} MismatchReported(expected: Json, actual: Option<Json>, base: seq<Step>, position: seq<Step>)
    requires WellFormed(expected) && Mismatch(expected, actual, position)
    ensures LossAt(expected, actual, base, position) in Losses(expected, actual, base)
    decreases |position|
  {
    if position == [] {
      assert base + position == base;
    } else {
      var step := position[0];
      var child, other := Child(expected, step).value, Child(actual.value, step);
      assert WellFormed(child) by { ChildWellFormed(expected, step); }
      MismatchReported(child, other, base + [step], position[1..]);
      LossAtChild(expected, actual, base, position);
      ChildLossesContained(expected, actual.value, base, step, LossAt(expected, actual, base, position));
    }
  }

  lemma ChildWellFormed(j: Json, step: Step)
    requires WellFormed(j) && Child(j, step).Some?
    ensures WellFormed(Child(j, step).value)
  {
    if j.Obj? {
      GetFinds(j.entries, step.key);
    }
  }

  lemma ChildLossesContained(expected: Json, actual: Json, base: seq<Step>, step: Step, loss: Loss)
    requires SameContainer(expected, actual) && Child(expected, step).Some? && WellFormed(expected)
    requires loss in Losses(Child(expected, step).value, Child(actual, step), base + [step])
    ensures loss in Losses(expected, Some(actual), base)
  {
    match expected
    case Obj(entries) =>
      GetFinds(entries, step.key);
      var i :| 0 <= i < |entries| && entries[i] == (step.key, Child(expected, step).value);
      EntryLossesContain(expected, entries, actual.entries, base, |entries|, i, loss);
    case Arr(items) =>
      ItemLossesContain(expected, items, actual.items, base, |items|, step.index, loss);
  }

  lemma {:induction false} EntryLossesContain(
    whole: Json, entries: seq<(string, Json)>, others: seq<(string, Json)>, position: seq<Step>, n: nat, i: nat,
    loss: Loss)
    requires whole == Obj(entries) && i < n <= |entries|
    requires loss in Losses(entries[i].1, Get(others, entries[i].0), position + [Key(entries[i].0)])
    ensures loss in EntryLosses(whole, entries, others, position, n)
  {
    hide Losses, Get;
    if i == n - 1 {
    } else {
      EntryLossesContain(whole, entries, others, position, n - 1, i, loss);
    }
  }

  lemma {:induction false} ItemLossesContain(
    whole: Json, items: seq<Json>, others: seq<Json>, position: seq<Step>, n: nat, i: nat, loss: Loss)
    requires whole == Arr(items) && i < n <= |items|
    requires loss in Losses(items[i], Find(others, i), position + [Index(i)])
    ensures loss in ItemLosses(whole, items, others, position, n)
  {
    hide Losses, Find;
    if i == n - 1 {
    } else {
      ItemLossesContain(whole, items, others, position, n - 1, i, loss);
    }
  }

  /** Every report is a mismatch, with the value and the path of its own position. */
  lemma {:induction false} ReportIsMismatch(expected: Json, actual: Option<Json>, base: seq<Step>, loss: Loss)
    returns (position: seq<Step>)
    requires WellFormed(expected) && loss in Losses(expected, actual, base)
    ensures Mismatch(expected, actual, position) && loss == LossAt(expected, actual, base, position)
    decreases expected, 1, 0
  {
    if actual.Some? && SameContainer(expected, actual.value) {
      match expected
      case Obj(entries) =>
        position := EntryReportIsMismatch(expected, entries, actual.value.entries, base, |entries|, loss);
      case Arr(items) =>
        position := ItemReportIsMismatch(expected, items, actual.value.items, base, |items|, loss);
    } else {
      position := [];
      assert base + position == base;
    }
  }

  lemma ChildMismatch(expected: Json, actual: Json, base: seq<Step>, step: Step, rest: seq<Step>)
    requires SameContainer(expected, actual) && Child(expected, step).Some?
    requires Mismatch(Child(expected, step).value, Child(actual, step), rest)
    ensures Mismatch(expected, Some(actual), [step] + rest)
    ensures LossAt(expected, Some(actual), base, [step] + rest) ==
            LossAt(Child(expected, step).value, Child(actual, step), base + [step], rest)
  {
    assert ([step] + rest)[1..] == rest;
    LossAtChild(expected, Some(actual), base, [step] + rest);
  }

  lemma {:induction false} EntryReportIsMismatch(
    whole: Json, entries: seq<(string, Json)>, others: seq<(string, Json)>, base: seq<Step>, n: nat, loss: Loss)
    returns (position: seq<Step>)
    requires WellFormed(whole) && whole == Obj(entries) && n <= |entries|
    requires loss in EntryLosses(whole, entries, others, base, n)
    ensures Mismatch(whole, Some(Obj(others)), position) && loss == LossAt(whole, Some(Obj(others)), base, position)
    decreases whole, 0, n
  {
    hide LossAt, Mismatch, Losses;
    var (key, value) := entries[n - 1];
    if loss in EntryLosses(whole, entries, others, base, n - 1) {
      position := EntryReportIsMismatch(whole, entries, others, base, n - 1, loss);
    } else {
      var rest := ReportIsMismatch(value, Get(others, key), base + [Key(key)], loss);
      GetAt(entries, n - 1);
      ChildMismatch(whole, Obj(others), base, Key(key), rest);
      position := [Key(key)] + rest;
    }
  }

  lemma {:induction false} ItemReportIsMismatch(
    whole: Json, items: seq<Json>, others: seq<Json>, base: seq<Step>, n: nat, loss: Loss)
    returns (position: seq<Step>)
    requires WellFormed(whole) && whole == Arr(items) && n <= |items|
    requires loss in ItemLosses(whole, items, others, base, n)
    ensures Mismatch(whole, Some(Arr(others)), position) && loss == LossAt(whole, Some(Arr(others)), base, position)
    decreases whole, 0, n
  {
    hide LossAt, Mismatch, Losses;
    if loss in ItemLosses(whole, items, others, base, n - 1) {
      position := ItemReportIsMismatch(whole, items, others, base, n - 1, loss);
    } else {
      var rest := ReportIsMismatch(items[n - 1], Find(others, n - 1), base + [Index(n - 1)], loss);
      ChildMismatch(whole, Arr(others), base, Index(n - 1), rest);
      position := [Index(n - 1)] + rest;
    }
  }

  /** The audit reports a position exactly when it is a mismatch. */
  lemma AuditIsExact(expected: Json, actual: Json, position: seq<Step>)
    requires WellFormed(expected)
    ensures (exists loss :: loss in Losses(expected, Some(actual), []) && loss.position == position) <==>
            Mismatch(expected, Some(actual), position)
    ensures Mismatch(expected, Some(actual), position) ==>
              LossAt(expected, Some(actual), [], position) in Losses(expected, Some(actual), [])
  {
    assert [] + position == position;
    if Mismatch(expected, Some(actual), position) {
      MismatchReported(expected, Some(actual), [], position);
    }
    if loss :| loss in Losses(expected, Some(actual), []) && loss.position == position {
      var p := ReportIsMismatch(expected, Some(actual), [], loss);
      assert [] + p == p;
    }
  }

  // ---- paths name positions ----

  function Rendered(position: seq<Step>): string {
    if position == [] then "" else RenderStep(position[0]) + Rendered(position[1..])
  }

  lemma {:induction false} PathIsRendered(position: seq<Step>, rest: seq<Step>)
    ensures Path(position) + Rendered(rest) == "$" + Rendered(position + rest)
    decreases |position|
  {
    hide RenderStep;
    if position == [] {
      assert position + rest == rest;
    } else {
      var n := |position| - 1;
      PathIsRendered(position[..n], [position[n]] + rest);
      assert ([position[n]] + rest)[1..] == rest;
      assert position[..n] + ([position[n]] + rest) == position + rest;
      assert Path(position) + Rendered(rest) == Path(position[..n]) + Rendered([position[n]] + rest);
    }
  }

  function Escaped(key: string): string {
    if key == [] then []
    else (if key[0] == '\\' || key[0] == '\'' then ['\\', key[0]] else [key[0]]) + Escaped(key[1..])
  }

  /** A key that is an identifier is written behind a dot, any other quoted behind it with backslash
      and quote escaped, an index in brackets. */
  lemma RenderStepIs(step: Step)
    ensures match step
            case Index(index) => RenderStep(step) == "[" + Digits(index) + "]"
            case Key(key) =>
              if (forall i :: 0 <= i < |key| ==>
                    'a' <= key[i] <= 'z' || 'A' <= key[i] <= 'Z' || key[i] == '_' || (i > 0 && '0' <= key[i] <= '9'))
              then RenderStep(step) == "." + key
              else RenderStep(step) == ".['" + Escaped(key) + "']"
  {
    if step.Key? {
      ReplaceTwice(step.key);
    }
  }

  lemma {:induction false} ReplaceConcat(a: string, b: string, c: char, into: string)
    ensures Replace(a + b, c, into) == Replace(a, c, into) + Replace(b, c, into)
  {
    if a == [] {
      assert a + b == b;
    } else {
      assert (a + b)[1..] == a[1..] + b;
      ReplaceConcat(a[1..], b, c, into);
    }
  }

  /** The two replacements, one after the other, escape backslashes and quotes once each. */
  lemma {:induction false} ReplaceTwice(key: string)
    ensures Replace(Replace(key, '\\', "\\\\"), '\'', "\\'") == Escaped(key)
  {
    if key == [] {
    } else {
      var head := if key[0] == '\\' then "\\\\" else [key[0]];
      ReplaceConcat(head, Replace(key[1..], '\\', "\\\\"), '\'', "\\'");
      ReplaceTwice(key[1..]);
      if key[0] == '\\' {
        ReplaceConcat(['\\'], ['\\'], '\'', "\\'");
        assert head == ['\\'] + ['\\'];
        assert Replace(head, '\'', "\\'") == ['\\', '\\'];
      } else if key[0] == '\'' {
        assert head[1..] == [];
        assert Replace(head, '\'', "\\'") == ['\\', '\''];
      } else {
        assert head[1..] == [];
        assert Replace(head, '\'', "\\'") == [key[0]];
      }
    }
  }

  /** The first unescaped quote ends a quoted key, so what was quoted can be read back. */
  lemma {:induction false} EscapedSplit(a: string, x: string, b: string, y: string)
    requires Escaped(a) + ['\''] + x == Escaped(b) + ['\''] + y
    ensures a == b && x == y
    decreases |a|
  {
    var left, right := Escaped(a) + ['\''] + x, Escaped(b) + ['\''] + y;
    if a == [] || b == [] {
      assert left[0] == right[0];
      assert a == [] ==> left[0] == '\'';
      assert b == [] ==> right[0] == '\'';
      assert left[1..] == right[1..];
      assert a == [] ==> left[1..] == x;
      assert b == [] ==> right[1..] == y;
    } else {
      var n := if a[0] == '\\' || a[0] == '\'' then 2 else 1;
      assert left[0] == right[0] && left[n - 1] == right[n - 1];
      assert left[n..] == Escaped(a[1..]) + ['\''] + x;
      assert right[n..] == Escaped(b[1..]) + ['\''] + y;
      EscapedSplit(a[1..], x, b[1..], y);
      assert a == [a[0]] + a[1..] && b == [b[0]] + b[1..];
    }
  }

  /** What can follow a rendered step. */
  predicate Boundary(tail: string) {
    tail == "" || tail[0] == '.' || (|tail| > 1 && tail[0] == '[' && IsDigit(tail[1]))
  }

  lemma RenderedIsBoundary(position: seq<Step>)
    ensures Boundary(Rendered(position))
  {
    if position != [] && position[0].Index? {
      DigitsValue(position[0].index);
    }
  }

  lemma IndexSplit(i: nat, x: string, j: nat, y: string)
    requires RenderStep(Index(i)) + x == RenderStep(Index(j)) + y
    ensures i == j && x == y
  {
    hide Digits, Value;
    DigitsValue(i);
    DigitsValue(j);
    IndexShape(i, x);
    IndexShape(j, y);
    SameTail("[", Digits(i) + ("]" + x), Digits(j) + ("]" + y));
    SameSplit(Digits(i), "]" + x, Digits(j), "]" + y, IsDigit);
    SameTail("]", x, y);
  }

  lemma IndexShape(i: nat, x: string)
    ensures RenderStep(Index(i)) + x == "[" + (Digits(i) + ("]" + x))
  {
    hide Digits;
  }

  lemma QuotedShape(key: string, x: string)
    requires !IsPlainKey(key)
    ensures RenderStep(Key(key)) + x == ".['" + (Escaped(key) + ['\''] + ("]" + x))
  {
    ReplaceTwice(key);
  }

  lemma PlainShape(key: string, x: string)
    requires IsPlainKey(key)
    ensures RenderStep(Key(key)) + x == "." + (key + x)
  {}

  lemma KeySplit(a: string, x: string, b: string, y: string)
    requires RenderStep(Key(a)) + x == RenderStep(Key(b)) + y && Boundary(x) && Boundary(y)
    ensures a == b && x == y
  {
    hide RenderStep;
    if IsPlainKey(a) && IsPlainKey(b) {
      PlainShape(a, x);
      PlainShape(b, y);
      SameTail(".", a + x, b + y);
      SameSplit(a, x, b, y, IsIdentifierChar);
    } else if IsPlainKey(a) {
      PlainIsNotQuoted(a, x, b, y);
    } else if IsPlainKey(b) {
      PlainIsNotQuoted(b, y, a, x);
    } else {
      QuotedSplit(a, x, b, y);
    }
  }

  lemma QuotedSplit(a: string, x: string, b: string, y: string)
    requires RenderStep(Key(a)) + x == RenderStep(Key(b)) + y && !IsPlainKey(a) && !IsPlainKey(b)
    ensures a == b && x == y
  {
    hide Escaped, RenderStep, IsPlainKey;
    QuotedShape(a, x);
    QuotedShape(b, y);
    SameTail(".['", Escaped(a) + ['\''] + ("]" + x), Escaped(b) + ['\''] + ("]" + y));
    EscapedSplit(a, "]" + x, b, "]" + y);
    SameTail("]", x, y);
  }

  lemma PlainIsNotQuoted(plain: string, x: string, quoted: string, y: string)
    requires IsPlainKey(plain) && !IsPlainKey(quoted) && Boundary(x)
    ensures RenderStep(Key(plain)) + x != RenderStep(Key(quoted)) + y
  {
    hide RenderStep, Escaped, IsPlainKey, Boundary;
    var rest := Escaped(quoted) + ['\''] + ("]" + y);
    PlainShape(plain, x);
    QuotedShape(quoted, y);
    PlainHead(plain, x, rest);
    DifferentTail(".", plain + x, "['" + rest);
    assert ".['" + rest == "." + ("['" + rest);
  }

  lemma PlainHead(plain: string, x: string, rest: string)
    requires IsPlainKey(plain) && Boundary(x)
    ensures plain + x != "['" + rest
  {
    assert ("['" + rest)[0] == '[' && ("['" + rest)[1] == '\'';
    assert plain != [] ==> (plain + x)[0] == plain[0];
    assert plain == [] ==> plain + x == x;
  }

  lemma DifferentTail(head: string, x: string, y: string)
    requires x != y
    ensures head + x != head + y
  {
    if head + x == head + y {
      SameTail(head, x, y);
    }
  }

  lemma {:induction false} RenderedInjective(p: seq<Step>, q: seq<Step>)
    requires Rendered(p) == Rendered(q)
    ensures p == q
    decreases |p|
  {
    if p == [] || q == [] {
    } else {
      var x, y := Rendered(p[1..]), Rendered(q[1..]);
      RenderedIsBoundary(p[1..]);
      RenderedIsBoundary(q[1..]);
      assert (RenderStep(p[0]) + x)[0] == (RenderStep(q[0]) + y)[0];
      if p[0].Key? {
        KeySplit(p[0].key, x, q[0].key, y);
      } else {
        IndexSplit(p[0].index, x, q[0].index, y);
      }
      RenderedInjective(p[1..], q[1..]);
      assert p == [p[0]] + p[1..] && q == [q[0]] + q[1..];
    }
  }

  /** A rendered path names one position only, whatever characters the keys contain. */
  lemma PathInjective(p: seq<Step>, q: seq<Step>)
    ensures Path(p) == Path(q) <==> p == q
  {
    if Path(p) == Path(q) {
      PathIsRendered(p, []);
      PathIsRendered(q, []);
      assert p + [] == p && q + [] == q;
      assert Path(p) + "" == Path(p) && Path(q) + "" == Path(q);
      assert ("$" + Rendered(p))[1..] == Rendered(p) && ("$" + Rendered(q))[1..] == Rendered(q);
      RenderedInjective(p, q);
    }
  }

  lemma {:induction false} LossesBelow(expected: Json, actual: Option<Json>, base: seq<Step>)
    ensures forall loss :: loss in Losses(expected, actual, base) ==>
              base <= loss.position && loss.path == Path(loss.position)
    decreases expected, 1, 0
  {
    if actual.Some? {
      match (expected, actual.value)
      case (Obj(entries), Obj(others)) => EntryLossesBelow(expected, entries, others, base, |entries|);
      case (Arr(items), Arr(others)) => ItemLossesBelow(expected, items, others, base, |items|);
      case _ =>
    }
  }

  predicate Below(base: seq<Step>, step: Step, loss: Loss) {
    base + [step] <= loss.position && loss.path == Path(loss.position)
  }

  ghost predicate BelowEntries(base: seq<Step>, entries: seq<(string, Json)>, n: nat, loss: Loss)
    requires n <= |entries|
  {
    exists i :: 0 <= i < n && Below(base, Key(entries[i].0), loss)
  }

  lemma {:induction false} EntryLossesBelow(
    whole: Json, entries: seq<(string, Json)>, others: seq<(string, Json)>, base: seq<Step>, n: nat)
    requires whole == Obj(entries) && n <= |entries|
    ensures forall loss :: loss in EntryLosses(whole, entries, others, base, n) ==> BelowEntries(base, entries, n, loss)
    decreases whole, 0, n
  {
    hide Losses, Path, Get;
    if n == 0 {
    } else {
      var (key, value) := entries[n - 1];
      var last := Losses(value, Get(others, key), base + [Key(key)]);
      EntryLossesBelow(whole, entries, others, base, n - 1);
      LossesBelow(value, Get(others, key), base + [Key(key)]);
      forall loss | loss in last ensures Below(base, Key(entries[n - 1].0), loss) {}
    }
  }

  lemma {:induction false} ItemLossesBelow(whole: Json, items: seq<Json>, others: seq<Json>, base: seq<Step>, n: nat)
    requires whole == Arr(items) && n <= |items|
    ensures forall loss :: loss in ItemLosses(whole, items, others, base, n) ==>
                             exists i :: 0 <= i < n && Below(base, Index(i), loss)
    decreases whole, 0, n
  {
    if n == 0 {
    } else {
      ItemLossesBelow(whole, items, others, base, n - 1);
      LossesBelow(items[n - 1], Find(others, n - 1), base + [Index(n - 1)]);
    }
  }

  predicate DistinctPositions(losses: seq<Loss>) {
    forall i, j :: 0 <= i < j < |losses| ==> losses[i].position != losses[j].position
  }

  lemma DistinctConcat(a: seq<Loss>, b: seq<Loss>)
    requires DistinctPositions(a) && DistinctPositions(b)
    requires forall x, y :: x in a && y in b ==> x.position != y.position
    ensures DistinctPositions(a + b)
  {}

  lemma {:induction false} LossesDistinct(expected: Json, actual: Option<Json>, base: seq<Step>)
    requires WellFormed(expected)
    ensures DistinctPositions(Losses(expected, actual, base))
    decreases expected, 1, 0
  {
    if actual.Some? {
      match (expected, actual.value)
      case (Obj(entries), Obj(others)) => EntryLossesDistinct(expected, entries, others, base, |entries|);
      case (Arr(items), Arr(others)) => ItemLossesDistinct(expected, items, others, base, |items|);
      case _ =>
    }
  }

  lemma {:induction false} EntryLossesDistinct(
    whole: Json, entries: seq<(string, Json)>, others: seq<(string, Json)>, base: seq<Step>, n: nat)
    requires WellFormed(whole) && whole == Obj(entries) && n <= |entries|
    ensures DistinctPositions(EntryLosses(whole, entries, others, base, n))
    decreases whole, 0, n
  {
    hide Losses, Path, Get;
    if n == 0 {
    } else {
      var (key, value) := entries[n - 1];
      var before, last := EntryLosses(whole, entries, others, base, n - 1), Losses(value, Get(others, key),
        base + [Key(key)]);
      EntryLossesDistinct(whole, entries, others, base, n - 1);
      LossesDistinct(value, Get(others, key), base + [Key(key)]);
      EntryLossesBelow(whole, entries, others, base, n - 1);
      LossesBelow(value, Get(others, key), base + [Key(key)]);
      forall x, y | x in before && y in last ensures x.position != y.position {
        assert BelowEntries(base, entries, n - 1, x);
        var i :| 0 <= i < n - 1 && Below(base, Key(entries[i].0), x);
        StepsDiffer(base, Key(entries[i].0), x.position, Key(key), y.position);
      }
      DistinctConcat(before, last);
    }
  }

  lemma {:induction false} ItemLossesDistinct(whole: Json, items: seq<Json>, others: seq<Json>, base: seq<Step>, n: nat)
    requires WellFormed(whole) && whole == Arr(items) && n <= |items|
    ensures DistinctPositions(ItemLosses(whole, items, others, base, n))
    decreases whole, 0, n
  {
    hide Losses, Path, Find;
    if n == 0 {
    } else {
      var before, last := ItemLosses(whole, items, others, base, n - 1), Losses(items[n - 1], Find(others, n - 1),
        base + [Index(n - 1)]);
      ItemLossesDistinct(whole, items, others, base, n - 1);
      LossesDistinct(items[n - 1], Find(others, n - 1), base + [Index(n - 1)]);
      ItemLossesBelow(whole, items, others, base, n - 1);
      LossesBelow(items[n - 1], Find(others, n - 1), base + [Index(n - 1)]);
      forall x, y | x in before && y in last ensures x.position != y.position {
        var i :| 0 <= i < n - 1 && Below(base, Index(i), x);
        StepsDiffer(base, Index(i), x.position, Index(n - 1), y.position);
      }
      DistinctConcat(before, last);
    }
  }

  lemma StepsDiffer(base: seq<Step>, a: Step, x: seq<Step>, b: Step, y: seq<Step>)
    requires base + [a] <= x && base + [b] <= y && a != b
    ensures x != y
  {
    assert (base + [a])[|base|] == a && (base + [b])[|base|] == b;
  }

  /** No two losses of one audit share a path. */
  lemma LossPathsDistinct(expected: Json, actual: Json, i: nat, j: nat)
    requires WellFormed(expected) && i < j < |Losses(expected, Some(actual), [])|
    ensures Losses(expected, Some(actual), [])[i].path != Losses(expected, Some(actual), [])[j].path
  {
    var losses := Losses(expected, Some(actual), []);
    LossesDistinct(expected, Some(actual), []);
    LossesBelow(expected, Some(actual), []);
    assert losses[i] in losses && losses[j] in losses;
    PathInjective(losses[i].position, losses[j].position);
  }
}
