/** Fitting a list result into the size limits by dropping trailing rows, `result.rs`. Texts are
    sequences of encoded characters, one per byte. */
module ResultRows {
  import opened Wrappers
  import opened Sequences
  import opened Decimal

  const MAX_STRUCTURED_CONTENT_BYTES: nat := 262_144
  const MAX_OUTPUT_FRAME_BYTES: nat := 1_048_576

  /** limit and total are part of the fixed text around the counters. */
  datatype PageInfo = PageInfo(returned: nat, hasMore: Option<bool>, truncated: bool)

  /** The encoded envelope around its rows, and the length of the frame around the envelope. */
  datatype Envelope = Envelope(
    beforeRows: string, afterRows: string, afterReturned: string, afterHasMore: string, afterTruncated: string,
    frameOverhead: nat)

  function EncodeBool(b: bool): string { if b then "true" else "false" }

  function EncodeOption(b: Option<bool>): string { if b.Some? then EncodeBool(b.value) else "null" }

  function Join(rows: seq<string>): string {
    if |rows| == 0 then ""
    else if |rows| == 1 then rows[0]
    else Join(rows[..|rows| - 1]) + "," + rows[|rows| - 1]
  }

  function PageText(e: Envelope, page: PageInfo): string {
    Digits(page.returned) + e.afterReturned + EncodeOption(page.hasMore) + e.afterHasMore +
    EncodeBool(page.truncated) + e.afterTruncated
  }

  /** The structured content with these rows. */
  function Encode(e: Envelope, rows: seq<string>, page: PageInfo): string {
    e.beforeRows + "[" + Join(rows) + "]" + e.afterRows + PageText(e, page)
  }

  /** A comma stands between two runs of rows, and nowhere else. */
  lemma {:induction false} JoinConcat(a: seq<string>, b: seq<string>)
    ensures a != [] && b != [] ==> Join(a + b) == Join(a) + "," + Join(b)
    ensures forall row: string :: Join([row]) == row
    ensures Join([]) == ""
  {
    if a == [] || b == [] {
    } else if |b| == 1 {
      assert (a + b)[..|a|] == a;
    } else {
      var k := |b| - 1;
      assert (a + b)[..|a| + k] == a + b[..k];
      JoinConcat(a, b[..k]);
    }
  }

  lemma EncodeIs(e: Envelope, rows: seq<string>, page: PageInfo)
    ensures Encode(e, rows, page) ==
            e.beforeRows + "[" + Join(rows) + "]" + e.afterRows
            + (Digits(page.returned) + e.afterReturned
               + (if page.hasMore == None then "null" else if page.hasMore == Some(true) then "true" else "false")
               + e.afterHasMore + (if page.truncated then "true" else "false") + e.afterTruncated)
  {
    hide Digits, Join;
  }

  /** The counters can be read off the text: two pages never give the same one. */
  lemma EncodeTellsPage(e: Envelope, rows: seq<string>, p: PageInfo, q: PageInfo)
    requires e.afterReturned != "" && !IsDigit(e.afterReturned[0])
    requires Encode(e, rows, p) == Encode(e, rows, q)
    ensures p == q
  {
    var head := e.beforeRows + "[" + Join(rows) + "]" + e.afterRows;
    SameTail(head, PageText(e, p), PageText(e, q));
    DigitsValue(p.returned);
    DigitsValue(q.returned);
    var x, y := FlagText(e, p), FlagText(e, q);
    PageTextSplits(e, p);
    PageTextSplits(e, q);
    SameSplit(Digits(p.returned), e.afterReturned + x, Digits(q.returned), e.afterReturned + y, IsDigit);
    SameTail(e.afterReturned, x, y);
    FlagsTold(e, p, q);
  }

  function FlagText(e: Envelope, page: PageInfo): string {
    EncodeOption(page.hasMore) + (e.afterHasMore + (EncodeBool(page.truncated) + e.afterTruncated))
  }

  lemma PageTextSplits(e: Envelope, page: PageInfo)
    ensures PageText(e, page) == Digits(page.returned) + (e.afterReturned + FlagText(e, page))
  {
    hide Digits;
  }

  lemma FlagsTold(e: Envelope, p: PageInfo, q: PageInfo)
    requires FlagText(e, p) == FlagText(e, q)
    ensures p.hasMore == q.hasMore && p.truncated == q.truncated
  {
    var x, y := EncodeBool(p.truncated) + e.afterTruncated, EncodeBool(q.truncated) + e.afterTruncated;
    assert EncodeOption(p.hasMore)[0] == FlagText(e, p)[0] && EncodeOption(q.hasMore)[0] == FlagText(e, q)[0];
    SameTail(EncodeOption(p.hasMore), e.afterHasMore + x, e.afterHasMore + y);
    SameTail(e.afterHasMore, x, y);
    assert EncodeBool(p.truncated)[0] == x[0] && EncodeBool(q.truncated)[0] == y[0];
  }

  /** Characters one character takes inside a JSON string (section 7 of RFC 8259). */
  function EscapedWidth(c: char): nat {
    if c in "\"\\\n\r\t" || c as int == 8 || c as int == 12 then 2
    else if c as int < 0x20 then 6
    else 1
  }

  function EscapedLength(s: string): nat {
    if s == "" then 0 else EscapedLength(s[..|s| - 1]) + EscapedWidth(s[|s| - 1])
  }

  function HexDigit(n: nat): char
    requires n < 16
  {
    "0123456789abcdef"[n]
  }

  /** A character inside a JSON string. */
  function Escape(c: char): string {
    match c
    case '"' => "\\\""
    case '\\' => "\\\\"
    case '\n' => "\\n"
    case '\r' => "\\r"
    case '\t' => "\\t"
    case _ =>
      if c as int == 8 then "\\b"
      else if c as int == 12 then "\\f"
      else if c as int < 0x20 then "\\u00" + [HexDigit(c as int / 16), HexDigit(c as int % 16)]
      else [c]
  }

  function EscapeAll(s: string): string { if s == "" then "" else Escape(s[0]) + EscapeAll(s[1..]) }

  /** What is counted is the length of the escaped text. */
  lemma {:induction false} EscapedLengthIs(s: string)
    ensures EscapedLength(s) == |EscapeAll(s)|
  {
    if s == "" {
    } else {
      EscapedLengthIs(s[1..]);
      EscapedConcat([s[0]], s[1..]);
      assert [s[0]] + s[1..] == s;
      assert [s[0]][..0] == "" && EscapedLength([s[0]]) == EscapedWidth(s[0]);
      EscapeWidth(s[0]);
    }
  }

  lemma EscapeWidth(c: char)
    ensures |Escape(c)| == EscapedWidth(c)
  {}

  /** The envelope fits on its own, and twice in a frame: once as it is, once as escaped text. */
  predicate Fits(e: Envelope, text: string) {
    && |text| <= MAX_STRUCTURED_CONTENT_BYTES
    && e.frameOverhead + |text| + EscapedLength(text) <= MAX_OUTPUT_FRAME_BYTES
  }

  /** The limits apply to the content as it is and to the frame with the content in it twice. */
  lemma FitsIff(e: Envelope, text: string)
    ensures Fits(e, text) <==> |text| <= 262_144 && e.frameOverhead + |text| + |EscapeAll(text)| <= 1_048_576
  {
    EscapedLengthIs(text);
  }

  /** The page as reported when `k` of `n` rows are kept. */
  function KeptPage(page: PageInfo, k: nat, n: nat): PageInfo {
    if k < n || page.truncated then PageInfo(k, Some(true), k < n || page.truncated)
    else PageInfo(k, page.hasMore, page.truncated)
  }

  /** What the page must say of `k` kept rows out of `n`: how many they are, and whether anything is
      missing, dropped here or left out before. */
  predicate Announces(shown: PageInfo, page: PageInfo, k: nat, n: nat) {
    && shown.returned == k
    && (shown.truncated <==> k < n || page.truncated)
    && shown.hasMore == if shown.truncated then Some(true) else page.hasMore
  }

  lemma KeptPageAnnounces(shown: PageInfo, page: PageInfo, k: nat, n: nat)
    ensures Announces(shown, page, k, n) <==> shown == KeptPage(page, k, n)
  {}

  function Candidate(e: Envelope, rows: seq<string>, page: PageInfo, k: nat): string
    requires k <= |rows|
  {
    Encode(e, rows[..k], KeptPage(page, k, |rows|))
  }

  // ---- the encoded size grows with the rows ----

  lemma {:induction false} EscapedConcat(a: string, b: string)
    ensures EscapedLength(a + b) == EscapedLength(a) + EscapedLength(b)
  {
    if b == "" {
      assert a + b == a;
    } else {
      assert (a + b)[..|a + b| - 1] == a + b[..|b| - 1];
      EscapedConcat(a, b[..|b| - 1]);
    }
  }

  /** Neither length nor escaped length shrinks. */
  predicate NoLonger(a: string, b: string) { |a| <= |b| && EscapedLength(a) <= EscapedLength(b) }

  lemma NoLongerConcat(a: string, b: string, x: string, y: string)
    requires NoLonger(a, b) && NoLonger(x, y)
    ensures NoLonger(a + x, b + y)
  {
    EscapedConcat(a, x);
    EscapedConcat(b, y);
  }

  /** Text that escaping leaves alone. */
  lemma {:induction false} PlainLength(s: string)
    requires forall i :: 0 <= i < |s| ==> EscapedWidth(s[i]) == 1
    ensures EscapedLength(s) == |s|
  {
    if s == "" {
    } else {
      PlainLength(s[..|s| - 1]);
    }
  }

  lemma FlagsGrow(b: Option<bool>, flag: bool)
    ensures NoLonger("true", EncodeOption(b)) && NoLonger("true", EncodeBool(flag))
  {
    PlainLength("true");
    PlainLength("false");
    PlainLength("null");
  }

  lemma {:induction false} DigitsGrow(n: nat)
    ensures NoLonger(Digits(n), Digits(n + 1))
  {
    DigitsValue(n);
    DigitsValue(n + 1);
    PlainLength(Digits(n));
    PlainLength(Digits(n + 1));
    DigitsLength(n + 1, |Digits(n + 1)|);
    DigitsLength(n, |Digits(n + 1)|);
  }

  lemma JoinGrows(rows: seq<string>, k: nat)
    requires 1 <= k < |rows|
    ensures NoLonger(Join(rows[..k]), Join(rows[..k + 1]))
  {
    assert rows[..k + 1][..k] == rows[..k];
    var tail := "," + rows[k];
    assert Join(rows[..k + 1]) == Join(rows[..k]) + tail;
    EscapedConcat(Join(rows[..k]), tail);
  }

  lemma Unchanged(s: string)
    ensures NoLonger(s, s)
  {}

  /** Also where the truncated and has_more flags flip at the full length. */
  lemma PageGrows(e: Envelope, page: PageInfo, k: nat, n: nat)
    requires 1 <= k < n
    ensures NoLonger(PageText(e, KeptPage(page, k, n)), PageText(e, KeptPage(page, k + 1, n)))
  {
    hide NoLonger;
    var p, q := KeptPage(page, k, n), KeptPage(page, k + 1, n);
    assert p.hasMore == Some(true) && p.truncated && p.returned == k && q.returned == k + 1;
    DigitsGrow(k);
    FlagsGrow(q.hasMore, q.truncated);
    Unchanged(e.afterReturned);
    Unchanged(e.afterHasMore);
    Unchanged(e.afterTruncated);
    var a, b := Digits(p.returned), Digits(q.returned);
    NoLongerConcat(a, b, e.afterReturned, e.afterReturned);
    NoLongerConcat(a + e.afterReturned, b + e.afterReturned, "true", EncodeOption(q.hasMore));
    NoLongerConcat(a + e.afterReturned + "true", b + e.afterReturned + EncodeOption(q.hasMore), e.afterHasMore,
      e.afterHasMore);
    NoLongerConcat(a + e.afterReturned + "true" + e.afterHasMore,
                   b + e.afterReturned + EncodeOption(q.hasMore) + e.afterHasMore, "true", EncodeBool(q.truncated));
    NoLongerConcat(a + e.afterReturned + "true" + e.afterHasMore + "true",
                   b + e.afterReturned + EncodeOption(q.hasMore) + e.afterHasMore + EncodeBool(q.truncated),
                   e.afterTruncated, e.afterTruncated);
  }

  lemma CandidateGrows(e: Envelope, rows: seq<string>, page: PageInfo, k: nat)
    requires 1 <= k < |rows|
    ensures NoLonger(Candidate(e, rows, page, k), Candidate(e, rows, page, k + 1))
  {
    hide NoLonger, PageText;
    var a, b := Join(rows[..k]), Join(rows[..k + 1]);
    JoinGrows(rows, k);
    PageGrows(e, page, k, |rows|);
    Unchanged(e.beforeRows + "[");
    Unchanged("]");
    Unchanged(e.afterRows);
    NoLongerConcat(e.beforeRows + "[", e.beforeRows + "[", a, b);
    NoLongerConcat(e.beforeRows + "[" + a, e.beforeRows + "[" + b, "]", "]");
    NoLongerConcat(e.beforeRows + "[" + a + "]", e.beforeRows + "[" + b + "]", e.afterRows, e.afterRows);
    NoLongerConcat(e.beforeRows + "[" + a + "]" + e.afterRows, e.beforeRows + "[" + b + "]" + e.afterRows,
                   PageText(e, KeptPage(page, k, |rows|)), PageText(e, KeptPage(page, k + 1, |rows|)));
  }

  lemma {:induction false} CandidatesShrink(e: Envelope, rows: seq<string>, page: PageInfo, k: nat, m: nat)
    requires 1 <= k <= m <= |rows| && Fits(e, Candidate(e, rows, page, m))
    ensures Fits(e, Candidate(e, rows, page, k))
    decreases m - k
  {
    if k == m {
    } else {
      CandidateGrows(e, rows, page, m - 1);
      CandidatesShrink(e, rows, page, k, m - 1);
    }
  }

  /** The result with the first `k` rows, announced as such, fits. */
  predicate FitsWith(e: Envelope, rows: seq<string>, page: PageInfo, k: nat, shown: PageInfo) {
    1 <= k <= |rows| && Announces(shown, page, k, |rows|) && Fits(e, Encode(e, rows[..k], shown))
  }

  lemma FitsWithIs(e: Envelope, rows: seq<string>, page: PageInfo, k: nat, shown: PageInfo)
    requires 1 <= k <= |rows|
    ensures FitsWith(e, rows, page, k, shown) <==>
            shown == KeptPage(page, k, |rows|) && Fits(e, Candidate(e, rows, page, k))
  {
    KeptPageAnnounces(shown, page, k, |rows|);
  }

  /** What does not fit does not fit with more rows either. */
  lemma FittingShrinks(
    e: Envelope, rows: seq<string>, page: PageInfo, k: nat, less: PageInfo, m: nat, more: PageInfo)
    requires 1 <= k <= m && FitsWith(e, rows, page, m, more) && Announces(less, page, k, |rows|)
    ensures FitsWith(e, rows, page, k, less)
  {
    hide Announces, FitsWith, Fits;
    assert m <= |rows| by { FitsBound(e, rows, page, m, more); }
    FitsWithIs(e, rows, page, m, more);
    FitsWithIs(e, rows, page, k, less);
    KeptPageAnnounces(less, page, k, |rows|);
    CandidatesShrink(e, rows, page, k, m);
  }

  lemma FitsBound(e: Envelope, rows: seq<string>, page: PageInfo, k: nat, shown: PageInfo)
    requires FitsWith(e, rows, page, k, shown)
    ensures k <= |rows|
  {}

  /** A result with the longest fitting prefix of the rows and the counters that belong to it;
      None exactly when not even one row fits, or without rows the empty result does not. */
  method SuccessWithTruncatedRows(e: Envelope, rows: seq<string>, page: PageInfo)
    returns (text: Option<string>, kept: nat, ghost shown: PageInfo)
    ensures rows == [] ==>
              && Announces(shown, page, 0, 0)
              && text == if Fits(e, Encode(e, [], shown)) then Some(Encode(e, [], shown)) else None
    ensures rows != [] && text.Some? ==>
              && FitsWith(e, rows, page, kept, shown) && text.value == Encode(e, rows[..kept], shown)
              && forall m: nat, other :: FitsWith(e, rows, page, m, other) ==> m <= kept
    ensures rows != [] && text.None? ==> forall m: nat, other :: !FitsWith(e, rows, page, m, other)
  {
    hide Fits, Encode, Announces;
    text, kept := None, 0;
    var started := if page.truncated then page.(hasMore := Some(true)) else page;
    shown := started.(returned := 0);
    KeptPageAnnounces(shown, page, 0, 0);
    if rows == [] {
      var empty := Encode(e, [], started.(returned := 0));
      if Fits(e, empty) {
        text := Some(empty);
      }
      return;
    }
    var low, high := 1, |rows|;
    while low <= high
      invariant 1 <= low <= high + 1 <= |rows| + 1
      invariant low == 1 ==> text == None
      invariant low > 1 ==>
                  && kept == low - 1 && text == Some(Encode(e, rows[..kept], shown))
                  && FitsWith(e, rows, page, kept, shown)
      invariant forall m: nat, other :: FitsWith(e, rows, page, m, other) ==> m <= high
      decreases high + 1 - low
    {
      var middle := low + (high - low) / 2;
      var candidatePage := started.(returned := middle);
      if middle < |rows| {
        candidatePage := candidatePage.(truncated := true, hasMore := Some(true));
      }
      var candidate := Encode(e, rows[..middle], candidatePage);
      KeptPageAnnounces(candidatePage, page, middle, |rows|);
      if Fits(e, candidate) {
        text, kept, shown := Some(candidate), middle, candidatePage;
        low := middle + 1;
      } else {
        forall m: nat, other | FitsWith(e, rows, page, m, other) ensures m <= middle - 1 {
          if m >= middle {
            FittingShrinks(e, rows, page, middle, candidatePage, m, other);
          }
        }
        high := middle - 1;
      }
    }
  }
}
