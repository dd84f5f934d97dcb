/** JSON texts by their grammar, and what the integer scan decides about every one of them. */
module JsonText {
  import opened Wrappers
  import opened Decimal
  import opened IntegerScanner

  /** One character of a string, escaped or not (section 7 of RFC 8259). */
  datatype Part = Plain(c: char) | Escape(c: char)

  /** sign and digits of the exponent behind its letter */
  datatype Exponent = Exponent(letter: char, sign: string, digits: string)

  /** A number (section 6 of RFC 8259), a string, or any other character. */
  datatype Token =
    | Mark(c: char)
    | Text(parts: seq<Part>)
    | Num(negative: bool, digits: string, fraction: Option<string>, exponent: Option<Exponent>)

  predicate ValidPart(p: Part) { p.Plain? ==> p.c != '"' && p.c != '\\' }

  predicate ValidToken(t: Token) {
    match t
    case Mark(c) => c != '"' && c != '-' && !IsDigit(c)
    case Text(parts) => forall i :: 0 <= i < |parts| ==> ValidPart(parts[i])
    case Num(_, digits, fraction, exponent) =>
      && digits != "" && AllDigits(digits) && (digits[0] == '0' ==> |digits| == 1)
      && (fraction.Some? ==> fraction.value != "" && AllDigits(fraction.value))
      && (exponent.Some? ==>
            && exponent.value.letter in "eE" && exponent.value.sign in ["", "+", "-"]
            && exponent.value.digits != "" && AllDigits(exponent.value.digits))
  }

  /** What the grammar lets follow a number. */
  predicate Separator(t: Token) { t.Mark? && t.c in " \t\n\r,]}" }

  predicate ValidTokens(tokens: seq<Token>) {
    && (forall i :: 0 <= i < |tokens| ==> ValidToken(tokens[i]))
    && forall i :: 0 <= i < |tokens| - 1 && tokens[i].Num? ==> Separator(tokens[i + 1])
  }

  function WriteParts(parts: seq<Part>): string {
    if parts == [] then ""
    else (if parts[0].Escape? then ['\\', parts[0].c] else [parts[0].c]) + WriteParts(parts[1..])
  }

  function WriteFraction(fraction: Option<string>): string {
    if fraction.Some? then "." + fraction.value else ""
  }

  function WriteExponent(exponent: Option<Exponent>): string {
    if exponent.Some? then [exponent.value.letter] + exponent.value.sign + exponent.value.digits else ""
  }

  function Write(t: Token): string {
    match t
    case Mark(c) => [c]
    case Text(parts) => "\"" + WriteParts(parts) + "\""
    case Num(negative, digits, fraction, exponent) =>
      (if negative then "-" else "") + digits + WriteFraction(fraction) + WriteExponent(exponent)
  }

  function WriteAll(tokens: seq<Token>): string {
    if tokens == [] then "" else Write(tokens[0]) + WriteAll(tokens[1..])
  }

  /** A number without fraction and exponent must lie in [-2^63, 2^64 - 1]. */
  predicate InRange(t: Token) {
    t.Num? && t.fraction.None? && t.exponent.None? && AllDigits(t.digits) ==>
      var magnitude: int := Value(t.digits);
      -0x8000_0000_0000_0000 <= (if t.negative then -magnitude else magnitude) <= 0xFFFF_FFFF_FFFF_FFFF
  }

  lemma RepresentableInRange(t: Token)
    requires t.Num? && AllDigits(t.digits)
    ensures t.fraction.None? && t.exponent.None? ==> (Representable(t.negative, t.digits) <==> InRange(t))
  {
    hide Value;
  }

  /** `piece` stands at position `p`. */
  predicate StandsAt(s: string, p: nat, piece: string) {
    p + |piece| <= |s| && s[p..p + |piece|] == piece
  }

  lemma StandsSplit(s: string, p: nat, a: string, b: string)
    ensures StandsAt(s, p, a + b) <==> StandsAt(s, p, a) && StandsAt(s, p + |a|, b)
  {
    if StandsAt(s, p, a) && StandsAt(s, p + |a|, b) {
      assert s[p..p + |a + b|] == s[p..p + |a|] + s[p + |a|..p + |a| + |b|];
    }
    if StandsAt(s, p, a + b) {
      assert s[p..p + |a|] == (a + b)[..|a|];
      assert s[p + |a|..p + |a| + |b|] == (a + b)[|a|..];
    }
  }

  lemma {:induction false} DigitsEndIs(s: string, i: nat, j: nat)
    requires i <= j && (forall k :: i <= k < j ==> DigitAt(s, k)) && !DigitAt(s, j)
    ensures DigitsEnd(s, i) == j
    decreases j - i
  {
    if i == j {
    } else {
      DigitsEndIs(s, i + 1, j);
    }
  }

  lemma DigitsStand(s: string, i: nat, digits: string)
    requires StandsAt(s, i, digits) && AllDigits(digits) && !DigitAt(s, i + |digits|)
    ensures DigitsEnd(s, i) == i + |digits|
  {
    forall k | i <= k < i + |digits| ensures DigitAt(s, k) {
      assert s[k] == s[i..i + |digits|][k - i];
    }
    DigitsEndIs(s, i, i + |digits|);
  }

  lemma {:induction false} StringEndIs(s: string, i: nat, parts: seq<Part>)
    requires forall k :: 0 <= k < |parts| ==> ValidPart(parts[k])
    requires StandsAt(s, i, WriteParts(parts) + "\"")
    ensures StringEnd(s, i) == i + |WriteParts(parts)| + 1
    decreases |parts|
  {
    StandsSplit(s, i, WriteParts(parts), "\"");
    assert s[i + |WriteParts(parts)|..i + |WriteParts(parts)| + 1][0] == s[i + |WriteParts(parts)|];
    if parts == [] {
    } else {
      var head := if parts[0].Escape? then ['\\', parts[0].c] else [parts[0].c];
      StandsSplit(s, i, head, WriteParts(parts[1..]));
      assert s[i] == s[i..i + |head|][0];
      StandsSplit(s, i + |head|, WriteParts(parts[1..]), "\"");
      StringEndIs(s, i + |head|, parts[1..]);
    }
  }

  /** The character at `p` cannot continue a number. */
  predicate Stops(s: string, p: nat) {
    p < |s| ==> !IsDigit(s[p]) && s[p] != '.' && s[p] != 'e' && s[p] != 'E'
  }

  lemma ExponentEndIs(s: string, p: nat, exponent: Option<Exponent>)
    requires exponent.Some? ==>
               && exponent.value.letter in "eE" && exponent.value.sign in ["", "+", "-"]
               && exponent.value.digits != "" && AllDigits(exponent.value.digits)
    requires StandsAt(s, p, WriteExponent(exponent)) && Stops(s, p + |WriteExponent(exponent)|)
    ensures ExponentEnd(s, p) == p + |WriteExponent(exponent)|
    ensures !DigitAt(s, p) && !CharAt(s, p, ".")
  {
    if exponent.Some? {
      var x := exponent.value;
      StandsSplit(s, p, [x.letter] + x.sign, x.digits);
      StandsSplit(s, p, [x.letter], x.sign);
      var from := p + 1 + |x.sign|;
      assert s[p] == s[p..p + 1][0] == x.letter;
      assert s[from] == s[from..from + |x.digits|][0] == x.digits[0];
      if x.sign != "" {
        assert s[p + 1] == s[p + 1..p + 1 + |x.sign|][0] == x.sign[0];
      }
      DigitsStand(s, from, x.digits);
    }
  }

  lemma FractionEndIs(s: string, p: nat, fraction: Option<string>, end: nat)
    requires fraction.Some? ==> fraction.value != "" && AllDigits(fraction.value)
    requires StandsAt(s, p, WriteFraction(fraction)) && end == p + |WriteFraction(fraction)|
    requires !DigitAt(s, end) && !CharAt(s, end, ".")
    ensures FractionEnd(s, p) == end && !DigitAt(s, p)
  {
    if fraction.Some? {
      StandsSplit(s, p, ".", fraction.value);
      assert s[p] == s[p..p + 1][0] == '.';
      DigitsStand(s, p + 1, fraction.value);
    }
  }

  lemma FirstAt(s: string, p: nat, piece: string)
    requires StandsAt(s, p, piece) && piece != ""
    ensures p < |s| && s[p] == piece[0]
  {
    assert s[p] == s[p..p + |piece|][0];
  }

  lemma PiecesEmpty(t: Token)
    requires t.Num? && ValidToken(t)
    ensures |WriteFraction(t.fraction)| + |WriteExponent(t.exponent)| == 0 <==> t.fraction.None? && t.exponent.None?
  {}

  function Sign(negative: bool): string { if negative then "-" else "" }

  lemma NumberStands(s: string, p: nat, t: Token)
    requires t.Num? && StandsAt(s, p, Write(t))
    ensures var from := p + |Sign(t.negative)|;
            var to := from + |t.digits|;
            var tail := to + |WriteFraction(t.fraction)|;
            && StandsAt(s, p, Sign(t.negative)) && StandsAt(s, from, t.digits)
            && StandsAt(s, to, WriteFraction(t.fraction)) && StandsAt(s, tail, WriteExponent(t.exponent))
            && p + |Write(t)| == tail + |WriteExponent(t.exponent)|
  {
    hide StandsAt, WriteFraction, WriteExponent;
    var sign, f, x := Sign(t.negative), WriteFraction(t.fraction), WriteExponent(t.exponent);
    assert Write(t) == sign + t.digits + f + x;
    StandsSplit(s, p, sign + t.digits + f, x);
    StandsSplit(s, p, sign + t.digits, f);
    StandsSplit(s, p, sign, t.digits);
  }

  /** A number token is read as a whole and judged by its own digits. */
  lemma NumberRead(s: string, p: nat, t: Token)
    requires t.Num? && ValidToken(t) && StandsAt(s, p, Write(t)) && Stops(s, p + |Write(t)|)
    ensures p < |s| && s[p] != '"' && (s[p] == '-' || IsDigit(s[p])) && DigitAt(s, SignEnd(s, p))
    ensures NumberEnd(s, p) == p + |Write(t)| && NumberAccepted(s, p) == InRange(t)
  {
    hide StandsAt, Stops, WriteFraction, WriteExponent, FractionEnd, ExponentEnd, IntegerEnd, Representable;
    hide Write, DigitsEnd, InRange;
    RepresentableInRange(t);
    if t.fraction.Some? || t.exponent.Some? {
      NotInteger(t);
    }
    NumberStands(s, p, t);
    var from := p + |Sign(t.negative)|;
    var to := from + |t.digits|;
    var tail := to + |WriteFraction(t.fraction)|;
    FirstAt(s, from, t.digits);
    if t.negative {
      FirstAt(s, p, "-");
    }
    assert SignEnd(s, p) == from;
    ExponentEndIs(s, tail, t.exponent);
    FractionEndIs(s, to, t.fraction, tail);
    IntegerEndIs(s, from, t.digits);
    assert s[from..to] == t.digits by { PieceAt(s, from, t.digits); }
    PiecesEmpty(t);
  }

  lemma NotInteger(t: Token)
    requires t.Num? && (t.fraction.Some? || t.exponent.Some?)
    ensures InRange(t)
  {}

  lemma PieceAt(s: string, p: nat, piece: string)
    requires StandsAt(s, p, piece)
    ensures p + |piece| <= |s| && s[p..p + |piece|] == piece
  {}

  lemma IntegerEndIs(s: string, from: nat, digits: string)
    requires digits != "" && AllDigits(digits) && (digits[0] == '0' ==> |digits| == 1)
    requires StandsAt(s, from, digits) && !DigitAt(s, from + |digits|)
    ensures IntegerEnd(s, from) == from + |digits|
  {
    assert s[from] == s[from..from + |digits|][0] == digits[0];
    DigitsStand(s, from, digits);
  }

  lemma ScanNumberStep(s: string, p: nat)
    requires p < |s| && s[p] != '"' && (s[p] == '-' || IsDigit(s[p])) && DigitAt(s, SignEnd(s, p))
    ensures Scan(s, p) <==> NumberAccepted(s, p) && Scan(s, NumberEnd(s, p))
  {
    hide NumberAccepted, NumberEnd, SignEnd, StringEnd;
  }

  lemma ScanStringStep(s: string, p: nat)
    requires p < |s| && s[p] == '"'
    ensures Scan(s, p) == Scan(s, StringEnd(s, p + 1))
  {
    hide NumberAccepted, NumberEnd, SignEnd, StringEnd;
  }

  lemma ScanMarkStep(s: string, p: nat)
    requires p < |s| && s[p] != '"' && s[p] != '-' && !IsDigit(s[p])
    ensures Scan(s, p) == Scan(s, p + 1)
  {
    hide NumberAccepted, NumberEnd, SignEnd, StringEnd;
  }

  /** One token is stepped over as a whole. */
  lemma ScanToken(s: string, p: nat, t: Token)
    requires ValidToken(t) && StandsAt(s, p, Write(t)) && (t.Num? ==> Stops(s, p + |Write(t)|))
    ensures Scan(s, p) <==> InRange(t) && Scan(s, p + |Write(t)|)
  {
    hide Scan, StandsAt, Stops, NumberEnd, NumberAccepted, Representable, SignEnd, StringEnd;
    hide WriteParts, WriteFraction, WriteExponent;
    match t
    case Mark(c) =>
      FirstAt(s, p, [c]);
      ScanMarkStep(s, p);
    case Text(parts) =>
      StandsSplit(s, p, "\"", WriteParts(parts) + "\"");
      assert "\"" + (WriteParts(parts) + "\"") == Write(t);
      FirstAt(s, p, "\"");
      StringEndIs(s, p + 1, parts);
      ScanStringStep(s, p);
    case Num(_, _, _, _) =>
      NumberRead(s, p, t);
      ScanNumberStep(s, p);
  }

  /** A list of tokens that starts with a separator stops a number. */
  lemma SeparatorStops(s: string, p: nat, tokens: seq<Token>)
    requires StandsAt(s, p, WriteAll(tokens)) && p + |WriteAll(tokens)| == |s|
    requires tokens != [] ==> Separator(tokens[0])
    ensures Stops(s, p)
  {
    if tokens != [] {
      FirstAt(s, p, WriteAll(tokens));
    }
  }

  lemma {:induction false} ScanTokens(s: string, p: nat, tokens: seq<Token>)
    requires ValidTokens(tokens) && StandsAt(s, p, WriteAll(tokens)) && p + |WriteAll(tokens)| == |s|
    ensures Scan(s, p) <==> AllInRange(tokens)
    decreases |tokens|
  {
    hide StandsAt, Stops, ValidToken, Separator, Write, InRange;
    if tokens == [] {
      assert p == |s|;
    } else {
      var t, rest := tokens[0], tokens[1..];
      StandsSplit(s, p, Write(t), WriteAll(rest));
      ScanTokens(s, p + |Write(t)|, rest);
      if t.Num? {
        SeparatorStops(s, p + |Write(t)|, rest);
      }
      ScanToken(s, p, t);
      assert tokens == [t] + rest;
    }
  }

  predicate AllInRange(tokens: seq<Token>) { forall i :: 0 <= i < |tokens| ==> InRange(tokens[i]) }
}
