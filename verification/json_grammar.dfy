/** The grammar of RFC 8259 as trees that carry their white space, so that every JSON text is one. */
module JsonGrammar {
  import opened IntegerScanner
  import opened JsonText

  datatype Value =
    | Word(word: string)
    | StringValue(parts: seq<Part>)
    | NumberValue(num: Token)
    | ArrayValue(blank: string, elements: seq<Element>)
    | ObjectValue(blank: string, members: seq<Member>)

  /** A value with the white space around it. A JSON text is one element. */
  datatype Element = Element(before: string, value: Value, after: string)

  datatype Member = Member(before: string, name: seq<Part>, middle: string, element: Element)

  predicate White(s: string) { forall i :: 0 <= i < |s| ==> s[i] in " \t\n\r" }

  predicate ValidValue(v: Value) {
    match v
    case Word(word) => word in ["true", "false", "null"]
    case StringValue(parts) => ValidToken(Text(parts))
    case NumberValue(num) => num.Num? && ValidToken(num)
    case ArrayValue(blank, elements) =>
      White(blank) && forall i :: 0 <= i < |elements| ==> ValidElement(elements[i])
    case ObjectValue(blank, members) =>
      White(blank) && forall i :: 0 <= i < |members| ==> ValidMember(members[i])
  }

  predicate ValidElement(e: Element) { White(e.before) && ValidValue(e.value) && White(e.after) }

  predicate ValidMember(m: Member) {
    White(m.before) && ValidToken(Text(m.name)) && White(m.middle) && ValidElement(m.element)
  }

  function Marks(s: string): (tokens: seq<Token>)
    ensures |tokens| == |s| && forall i :: 0 <= i < |s| ==> tokens[i] == Mark(s[i])
  {
    seq(|s|, i requires 0 <= i < |s| => Mark(s[i]))
  }

  function ValueTokens(v: Value): seq<Token>
    decreases v, 0
  {
    match v
    case Word(word) => Marks(word)
    case StringValue(parts) => [Text(parts)]
    case NumberValue(num) => [num]
    case ArrayValue(blank, elements) =>
      [Mark('[')] + (if elements == [] then Marks(blank) else ElementsTokens(v, elements, |elements|)) + [Mark(']')]
    case ObjectValue(blank, members) =>
      [Mark('{')] + (if members == [] then Marks(blank) else MembersTokens(v, members, |members|)) + [Mark('}')]
  }

  function ElementTokens(e: Element): seq<Token>
    decreases e, 0
  {
    Marks(e.before) + ValueTokens(e.value) + Marks(e.after)
  }

  function MemberTokens(m: Member): seq<Token>
    decreases m, 0
  {
    Marks(m.before) + [Text(m.name)] + (Marks(m.middle) + [Mark(':')]) + ElementTokens(m.element)
  }

  /** The first `n` elements with commas between them. */
  function ElementsTokens(v: Value, elements: seq<Element>, n: nat): seq<Token>
    requires v.ArrayValue? && v.elements == elements && n <= |elements|
    decreases v, 0, n
  {
    if n == 0 then []
    else if n == 1 then ElementTokens(elements[0])
    else ElementsTokens(v, elements, n - 1) + [Mark(',')] + ElementTokens(elements[n - 1])
  }

  function MembersTokens(v: Value, members: seq<Member>, n: nat): seq<Token>
    requires v.ObjectValue? && v.members == members && n <= |members|
    decreases v, 0, n
  {
    if n == 0 then []
    else if n == 1 then MemberTokens(members[0])
    else MembersTokens(v, members, n - 1) + [Mark(',')] + MemberTokens(members[n - 1])
  }

  /** Every integer of the tree can be represented. */
  predicate IntegersInRange(v: Value) {
    match v
    case NumberValue(num) => InRange(num)
    case ArrayValue(_, elements) => forall i :: 0 <= i < |elements| ==> IntegersInRange(elements[i].value)
    case ObjectValue(_, members) => forall i :: 0 <= i < |members| ==> IntegersInRange(members[i].element.value)
    case _ => true
  }

  // ---- tokens of a tree are well formed and carry its integers ----

  /** Valid tokens whose integers are all in range exactly when `ok` says so. */
  predicate Carries(tokens: seq<Token>, ok: bool) { ValidTokens(tokens) && (AllInRange(tokens) <==> ok) }

  lemma CarriesConcat(a: seq<Token>, okA: bool, b: seq<Token>, okB: bool)
    requires Carries(a, okA) && Carries(b, okB)
    requires a == [] || b == [] || !a[|a| - 1].Num? || Separator(b[0])
    ensures Carries(a + b, okA && okB)
  {
    hide ValidToken, InRange, Separator;
    var all := a + b;
    forall i | 0 <= i < |all| - 1 && all[i].Num? ensures Separator(all[i + 1]) {
      if i < |a| - 1 {
        assert all[i + 1] == a[i + 1];
      } else if i == |a| - 1 {
        assert all[i + 1] == b[0];
      } else {
        assert all[i] == b[i - |a|] && all[i + 1] == b[i - |a| + 1];
      }
    }
    forall i | 0 <= i < |all| ensures ValidToken(all[i]) {
      assert i < |a| ==> all[i] == a[i];
      assert i >= |a| ==> all[i] == b[i - |a|];
    }
    if AllInRange(all) {
      forall i | 0 <= i < |a| ensures InRange(a[i]) {
        assert all[i] == a[i];
      }
      forall i | 0 <= i < |b| ensures InRange(b[i]) {
        assert all[|a| + i] == b[i];
      }
    }
  }

  lemma MarksCarry(s: string)
    requires forall i :: 0 <= i < |s| ==> ValidToken(Mark(s[i]))
    ensures Carries(Marks(s), true)
  {}

  lemma WhiteMarks(s: string)
    requires White(s)
    ensures Carries(Marks(s), true)
    ensures s != "" ==> Separator(Marks(s)[0]) && Marks(s)[|s| - 1].Mark?
  {
    forall i | 0 <= i < |s| ensures ValidToken(Mark(s[i])) {}
    MarksCarry(s);
  }

  lemma {:induction false} ValueCarries(v: Value)
    requires ValidValue(v)
    ensures Carries(ValueTokens(v), IntegersInRange(v))
    decreases v, 0
  {
    match v
    case Word(word) =>
      assert forall i :: 0 <= i < |word| ==> word[i] in "truefalsn";
      MarksCarry(word);
    case StringValue(parts) => SingleToken(Text(parts));
    case NumberValue(num) => SingleToken(num);
    case ArrayValue(blank, elements) =>
      WhiteMarks(blank);
      ElementsCarry(v, elements, |elements|);
      var inner := if elements == [] then Marks(blank) else ElementsTokens(v, elements, |elements|);
      Bracketed('[', inner, ']', IntegersInRange(v));
    case ObjectValue(blank, members) =>
      WhiteMarks(blank);
      MembersCarry(v, members, |members|);
      var inner := if members == [] then Marks(blank) else MembersTokens(v, members, |members|);
      Bracketed('{', inner, '}', IntegersInRange(v));
  }

  lemma Bracketed(open: char, inner: seq<Token>, close: char, ok: bool)
    requires open in "[{" && close in "]}" && Carries(inner, ok)
    ensures Carries([Mark(open)] + inner + [Mark(close)], ok)
  {
    hide Carries;
    SingleMark(open);
    SingleMark(close);
    CarriesConcat([Mark(open)], true, inner, ok);
    CarriesConcat([Mark(open)] + inner, ok, [Mark(close)], true);
  }

  lemma SingleToken(t: Token)
    requires ValidToken(t)
    ensures Carries([t], InRange(t))
  {
    assert [t][0] == t;
  }

  lemma NoTokens()
    ensures Carries([], true)
  {}

  lemma SingleMark(c: char)
    requires c in "[{]},:"
    ensures Carries([Mark(c)], true)
    ensures c in "]}," ==> Separator(Mark(c))
  {}

  lemma {:induction false} ElementCarries(e: Element)
    requires ValidElement(e)
    ensures Carries(ElementTokens(e), IntegersInRange(e.value))
    decreases e, 0
  {
    hide Carries;
    WhiteMarks(e.before);
    WhiteMarks(e.after);
    ValueCarries(e.value);
    CarriesConcat(Marks(e.before), true, ValueTokens(e.value), IntegersInRange(e.value));
    CarriesConcat(Marks(e.before) + ValueTokens(e.value), IntegersInRange(e.value), Marks(e.after), true);
  }

  lemma {:induction false} MemberCarries(m: Member)
    requires ValidMember(m)
    ensures Carries(MemberTokens(m), IntegersInRange(m.element.value))
    decreases m, 0
  {
    WhiteMarks(m.before);
    WhiteMarks(m.middle);
    SingleMark(':');
    ElementCarries(m.element);
    SingleToken(Text(m.name));
    hide Carries;
    CarriesConcat(Marks(m.before), true, [Text(m.name)], true);
    CarriesConcat(Marks(m.middle), true, [Mark(':')], true);
    CarriesConcat(Marks(m.before) + [Text(m.name)], true, Marks(m.middle) + [Mark(':')], true);
    CarriesConcat(Marks(m.before) + [Text(m.name)] + (Marks(m.middle) + [Mark(':')]), true,
                  ElementTokens(m.element), IntegersInRange(m.element.value));
  }

  lemma {:induction false} ElementsCarry(v: Value, elements: seq<Element>, n: nat)
    requires v.ArrayValue? && v.elements == elements && ValidValue(v) && n <= |elements|
    ensures Carries(ElementsTokens(v, elements, n), forall i :: 0 <= i < n ==> IntegersInRange(elements[i].value))
    decreases v, 0, n
  {
    hide Carries, IntegersInRange, ValidElement;
    NoTokens();
    if n == 0 {
    } else {
      var last := elements[n - 1];
      ElementCarries(last);
      if n > 1 {
        ElementsCarry(v, elements, n - 1);
        var before := forall i :: 0 <= i < n - 1 ==> IntegersInRange(elements[i].value);
        Appended(ElementsTokens(v, elements, n - 1), before, ElementTokens(last), IntegersInRange(last.value));
      }
    }
  }

  lemma {:induction false} MembersCarry(v: Value, members: seq<Member>, n: nat)
    requires v.ObjectValue? && v.members == members && ValidValue(v) && n <= |members|
    ensures Carries(MembersTokens(v, members, n), forall i :: 0 <= i < n ==> IntegersInRange(members[i].element.value))
    decreases v, 0, n
  {
    hide Carries, IntegersInRange, ValidMember;
    NoTokens();
    if n == 0 {
    } else {
      var last := members[n - 1];
      MemberCarries(last);
      if n > 1 {
        MembersCarry(v, members, n - 1);
        var before := forall i :: 0 <= i < n - 1 ==> IntegersInRange(members[i].element.value);
        Appended(MembersTokens(v, members, n - 1), before, MemberTokens(last), IntegersInRange(last.element.value));
      }
    }
  }

  lemma Appended(a: seq<Token>, okA: bool, b: seq<Token>, okB: bool)
    requires Carries(a, okA) && Carries(b, okB)
    ensures Carries(a + [Mark(',')] + b, okA && okB)
  {
    hide Carries;
    SingleMark(',');
    CarriesConcat(a, okA, [Mark(',')], true);
    CarriesConcat(a + [Mark(',')], okA, b, okB);
  }

  /** For every JSON text, the scan accepts exactly when each number without fraction and exponent
      lies in [-2^63, 2^64 - 1], strings and all other numbers aside. */
  lemma ScanIsExact(text: Element)
    requires ValidElement(text)
    ensures Scan(WriteAll(ElementTokens(text)), 0) <==> IntegersInRange(text.value)
  {
    var s := WriteAll(ElementTokens(text));
    ElementCarries(text);
    assert s[0..|s|] == s;
    ScanTokens(s, 0, ElementTokens(text));
  }
}
