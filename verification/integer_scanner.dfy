/** The integer-range scan of `transport.rs` over unparsed JSON text. A character stands for one
    UTF-8 sequence: no byte of a longer sequence is one that the scan looks for. */
module IntegerScanner {
  import opened Decimal

  const MAX_U64: nat := 18_446_744_073_709_551_615
  const MIN_I64_MAGNITUDE: nat := 9_223_372_036_854_775_808

  predicate CharAt(s: string, i: nat, chars: string) { i < |s| && s[i] in chars }

  predicate DigitAt(s: string, i: nat) { i < |s| && IsDigit(s[i]) }

  /** End of the run of digits that starts at `i`. */
  function DigitsEnd(s: string, i: nat): (end: nat)
    ensures i <= end && (i <= |s| ==> end <= |s|) && !DigitAt(s, end)
    ensures forall k :: i <= k < end ==> DigitAt(s, k)
    decreases |s| - i
  {
    if DigitAt(s, i) then DigitsEnd(s, i + 1) else i
  }

  /** End of a string whose opening quote is behind `i`; past the text if it never closes. */
  function StringEnd(s: string, i: nat): (end: nat)
    ensures i <= end
    decreases |s| - i
  {
    if i >= |s| then i
    else if s[i] == '\\' then StringEnd(s, i + 2)
    else if s[i] == '"' then i + 1
    else StringEnd(s, i + 1)
  }

  function FractionEnd(s: string, i: nat): (end: nat)
    ensures i <= end && (i <= |s| ==> end <= |s|)
  {
    if CharAt(s, i, ".") then DigitsEnd(s, i + 1) else i
  }

  function ExponentEnd(s: string, i: nat): (end: nat)
    ensures i <= end && (i <= |s| ==> end <= |s|)
  {
    if !CharAt(s, i, "eE") then i
    else DigitsEnd(s, if CharAt(s, i + 1, "+-") then i + 2 else i + 1)
  }

  function SignEnd(s: string, i: nat): nat { if CharAt(s, i, "-") then i + 1 else i }

  /** A leading zero stands alone. */
  function IntegerEnd(s: string, i: nat): (end: nat)
    ensures i <= end && (i <= |s| ==> end <= |s|)
  {
    if CharAt(s, i, "0") then i + 1 else DigitsEnd(s, i)
  }

  predicate AllDigits(s: string) { forall i :: 0 <= i < |s| ==> IsDigit(s[i]) }

  /** What `parse::<i64>` accepts of "-" and digits, and `parse::<u64>` of digits alone. */
  predicate Representable(negative: bool, digits: string) {
    AllDigits(digits) && if negative then Value(digits) <= MIN_I64_MAGNITUDE else Value(digits) <= MAX_U64
  }

  /** The scan from position `i` on. */
  function Scan(s: string, i: nat): bool
    decreases |s| - i
  {
    if i >= |s| then true
    else if s[i] == '"' then Scan(s, StringEnd(s, i + 1))
    else if s[i] != '-' && !IsDigit(s[i]) then Scan(s, i + 1)
    else
      if !DigitAt(s, SignEnd(s, i)) then Scan(s, i + 1)
      else NumberAccepted(s, i) && Scan(s, NumberEnd(s, i))
  }

  function NumberEnd(s: string, i: nat): (end: nat)
    ensures i <= end && (i <= |s| ==> end <= |s|)
    ensures DigitAt(s, SignEnd(s, i)) ==> i < end
  {
    ExponentEnd(s, FractionEnd(s, IntegerEnd(s, SignEnd(s, i))))
  }

  /** The number that starts at `i` is no integer, or one that can be represented. */
  predicate NumberAccepted(s: string, i: nat)
    requires i < |s|
  {
    var from := SignEnd(s, i);
    var to := IntegerEnd(s, from);
    NumberEnd(s, i) == to ==> Representable(from > i, s[from..to])
  }

  // ---- the scan as the program runs it ----

  method SkipDigits(s: string, start: nat) returns (index: nat)
    ensures index == DigitsEnd(s, start)
  {
    index := start;
    while index < |s| && IsDigit(s[index])
      invariant DigitsEnd(s, start) == DigitsEnd(s, index)
    {
      index := index + 1;
    }
  }

  method SkipString(s: string, start: nat) returns (index: nat)
    ensures index == StringEnd(s, start)
  {
    index := start;
    while index < |s|
      invariant StringEnd(s, start) == StringEnd(s, index)
      decreases |s| - index
    {
      if s[index] == '\\' {
        index := index + 2;
      } else if s[index] == '"' {
        index := index + 1;
        return;
      } else {
        index := index + 1;
      }
    }
  }

  /** Read one number; its digits start at `from`. */
  method SkipNumber(text: string, start: nat, from: nat) returns (index: nat, ok: bool)
    requires from == SignEnd(text, start) && DigitAt(text, from)
    ensures index == NumberEnd(text, start) && ok == NumberAccepted(text, start)
  {
    hide Representable, DigitsEnd;
    index := from;
    if text[index] == '0' {
      index := index + 1;
    } else {
      index := SkipDigits(text, index);
    }
    var to := index;
    var isInteger := true;
    if index < |text| && text[index] == '.' {
      isInteger := false;
      index := SkipDigits(text, index + 1);
    }
    if index < |text| && (text[index] == 'e' || text[index] == 'E') {
      isInteger := false;
      index := index + 1;
      if index < |text| && (text[index] == '+' || text[index] == '-') {
        index := index + 1;
      }
      index := SkipDigits(text, index);
    }
    ok := !isInteger || Representable(from > start, text[from..to]);
  }

  /** Accept unless an integer outside a string cannot be represented. */
  method ValidateIntegerRanges(text: string) returns (ok: bool)
    ensures ok == Scan(text, 0)
  {
    hide NumberAccepted, NumberEnd, StringEnd;
    var index := 0;
    while index < |text|
      invariant Scan(text, 0) == Scan(text, index)
      decreases |text| - index
    {
      if text[index] == '"' {
        index := SkipString(text, index + 1);
      } else if text[index] != '-' && !IsDigit(text[index]) {
        index := index + 1;
      } else {
        var from := if text[index] == '-' then index + 1 else index;
        if from == |text| || !IsDigit(text[from]) {
          index := index + 1;
        } else {
          var end, inRange := SkipNumber(text, index, from);
          if !inRange {
            return false;
          }
          index := end;
        }
      }
    }
    return true;
  }
}
