/**
 * `extract_fund_metadata_from_content` (parse_factsheet.py:308-430): one pass over the heading
 * and paragraph items of every page that fills the fund's metadata. Each scalar field is set
 * only while its value is falsy, and fund managers are collected without duplicates.
 *
 * The labelled-value patterns (allotment date, benchmarks, AUM figures, expense ratios and the
 * two fund-manager `findall` patterns) are given as matcher functions; everything around them
 * (which items are looked at, the guards, the conversions and the manager bookkeeping) is
 * modelled as written.
 */
module Metadata {
  import opened Wrappers
  import opened CharClass
  import opened Text
  import opened Content

  // ---------------------------------------------------------------------------
  // The metadata record and its falsy values
  // ---------------------------------------------------------------------------

  /** The `meta` dictionary; the numbers are exact decimals. */
  datatype FundMetadata = FundMetadata(
    name: Option<string>,
    category: Option<string>,
    aumCrore: Option<real>,
    monthlyAvgAum: Option<real>,
    expenseRatioRegular: Option<real>,
    expenseRatioDirect: Option<real>,
    benchmark: Option<string>,
    additionalBenchmark: Option<string>,
    dateOfAllotment: Option<string>,
    managers: seq<string>,
    docDate: Option<string>)

  /** `not value` for a string field: `None` and `""` are falsy. */
  predicate Falsy(v: Option<string>) {
    v.None? || v.value == []
  }

  /** `not value` for a number field: `None` and `0.0` are falsy. */
  predicate FalsyNum(v: Option<real>) {
    v.None? || v.value == 0.0
  }

  /** The patterns the model leaves abstract: each returns the first capture group of its
    * `re.search`, or, for the two manager patterns, every capture of `re.findall`. */
  datatype Matchers = Matchers(
    allotment: string -> Option<string>,
    benchmark: string -> Option<string>,
    additionalBenchmark: string -> Option<string>,
    netAum: string -> Option<string>,
    monthlyAum: string -> Option<string>,
    regularPlan: string -> Option<string>,
    directPlan: string -> Option<string>,
    fundManagers: string -> seq<string>,
    titledManagers: string -> seq<string>)

  // ---------------------------------------------------------------------------
  // doc_date: re.search(r"(January|...|December)\s+\d{4}", cover_text)
  // ---------------------------------------------------------------------------

  const MONTHS: seq<string> := [
    "January", "February", "March", "April", "May", "June", "July",
    "August", "September", "October", "November", "December"
  ]

  /** The first of `months`, in the order of the alternatives, that occurs at `i`
    * (`|months|` if none). */
  function MonthAt(s: string, i: nat, months: seq<string>, from: nat): (m: nat)
    requires from <= |months|
    ensures from <= m <= |months|
    ensures m < |months| ==> MatchesAt(s, i, months[m], false)
    ensures forall j :: from <= j < m ==> !MatchesAt(s, i, months[j], false)
    decreases |months| - from
  {
    if from == |months| then from
    else if MatchesAt(s, i, months[from], false) then from
    else MonthAt(s, i, months, from + 1)
  }

  /** The month names differ within their first three letters. */
  lemma MonthsDiffer(j: nat, k: nat)
    requires j < |MONTHS| && k < |MONTHS| && j != k
    ensures |MONTHS[j]| >= 3 && |MONTHS[k]| >= 3
    ensures MONTHS[j][0] != MONTHS[k][0] || MONTHS[j][1] != MONTHS[k][1] || MONTHS[j][2] != MONTHS[k][2]
  {
  }

  /** Names that differ within their first three characters. */
  predicate DistinctStarts(names: seq<string>) {
    forall j, k :: 0 <= j < |names| && 0 <= k < |names| && j != k ==>
      |names[j]| >= 3 && |names[k]| >= 3 && names[j][..3] != names[k][..3]
  }

  lemma MonthsDistinctStarts()
    ensures DistinctStarts(MONTHS)
  {
    forall j, k | 0 <= j < |MONTHS| && 0 <= k < |MONTHS| && j != k
      ensures |MONTHS[j]| >= 3 && |MONTHS[k]| >= 3 && MONTHS[j][..3] != MONTHS[k][..3]
    {
      MonthsDiffer(j, k);
      var a, b := MONTHS[j], MONTHS[k];
      assert a[..3][0] == a[0] && a[..3][1] == a[1] && a[..3][2] == a[2];
      assert b[..3][0] == b[0] && b[..3][1] == b[1] && b[..3][2] == b[2];
    }
  }

  /** At most one of such names occurs at a position, so the order of the alternatives in the
    * pattern does not change which one matches. */
  lemma MonthMatchUnique(s: string, i: nat, names: seq<string>, j: nat, k: nat)
    requires DistinctStarts(names) && j < |names| && k < |names|
    requires MatchesAt(s, i, names[j], false) && MatchesAt(s, i, names[k], false)
    ensures j == k
  {
    if j != k {
      assert false;
    }
  }

  predicate AllDigits(s: string) {
    forall k :: 0 <= k < |s| ==> IsDigit(s[k])
  }

  /** `\s+\d{4}` at `j`: at least one whitespace character, then four digits. */
  predicate SpacesThenYear(s: string, j: nat) {
    j <= |s| &&
    var k := SkipSpaces(s, j);
    j < k && k + 4 <= |s| && AllDigits(s[k..k + 4])
  }

  /** A month name at `i`, at least one whitespace character, then four digits. */
  predicate DateAt(s: string, i: nat, months: seq<string>) {
    var m := MonthAt(s, i, months, 0);
    m < |months| && SpacesThenYear(s, i + |months[m]|)
  }

  /** The date pattern matches at `i` exactly when some alternative of the month group is
    * followed there by whitespace and four digits, whichever alternative the search tries. */
  lemma DateAtAnyMonth(s: string, i: nat, months: seq<string>)
    requires DistinctStarts(months)
    ensures DateAt(s, i, months) <==>
      exists m :: 0 <= m < |months| && MatchesAt(s, i, months[m], false) && SpacesThenYear(s, i + |months[m]|)
  {
    var first := MonthAt(s, i, months, 0);
    if m :| 0 <= m < |months| && MatchesAt(s, i, months[m], false) && SpacesThenYear(s, i + |months[m]|) {
      assert first <= m;
      MonthMatchUnique(s, i, months, first, m);
    }
  }

  /** The end of the date that starts at `i`. */
  function DateEnd(s: string, i: nat, months: seq<string>): (e: nat)
    requires DateAt(s, i, months)
    ensures i < e <= |s|
  {
    SkipSpaces(s, i + |months[MonthAt(s, i, months, 0)]|) + 4
  }

  /** The first position at or after `i` where a date starts, or `|s|`. */
  function FirstDate(s: string, i: nat, months: seq<string>): (p: nat)
    requires i <= |s|
    ensures i <= p <= |s|
    ensures p < |s| ==> DateAt(s, p, months)
    decreases |s| - i
  {
    if i == |s| || DateAt(s, i, months) then i else FirstDate(s, i + 1, months)
  }

  /** The leftmost date: `m.group(0)` of the search, if any. */
  function FindDocDate(s: string): Option<string> {
    var p := FirstDate(s, 0, MONTHS);
    if p < |s| then Some(s[p..DateEnd(s, p, MONTHS)]) else None
  }

  /** The search stops at the first position where a date starts. */
  lemma {:induction false} FirstDateLeftmost(s: string, i: nat, months: seq<string>)
    requires i <= |s|
    ensures forall q :: i <= q < FirstDate(s, i, months) ==> !DateAt(s, q, months)
    decreases |s| - i
  {
    if i < |s| && !DateAt(s, i, months) {
      FirstDateLeftmost(s, i + 1, months);
      var p := FirstDate(s, i + 1, months);
      assert FirstDate(s, i, months) == p;
      forall q | i <= q < p ensures !DateAt(s, q, months) {
        if q > i { assert i + 1 <= q < p; }
      }
    }
  }

  /** The date found is the text at the leftmost position where a month name is followed by
    * whitespace and four digits; there is none exactly when no position has one. */
  lemma FindDocDateLeftmost(s: string)
    ensures FindDocDate(s).None? <==> forall p :: 0 <= p < |s| ==> !DateAt(s, p, MONTHS)
    ensures FindDocDate(s).Some? ==>
      var p := FirstDate(s, 0, MONTHS);
      && p < |s| && DateAt(s, p, MONTHS) && FindDocDate(s).value == s[p..DateEnd(s, p, MONTHS)]
      && forall q :: 0 <= q < p ==> !DateAt(s, q, MONTHS)
  {
    FirstDateLeftmost(s, 0, MONTHS);
  }

  /** The search finds nothing exactly when no name, at any position, is followed by
    * whitespace and four digits. */
  lemma FirstDateNone(s: string, months: seq<string>)
    requires DistinctStarts(months)
    ensures FirstDate(s, 0, months) == |s| <==> forall p, m :: 0 <= p < |s| && 0 <= m < |months| ==>
      !(MatchesAt(s, p, months[m], false) && SpacesThenYear(s, p + |months[m]|))
  {
    var first := FirstDate(s, 0, months);
    FirstDateLeftmost(s, 0, months);
    if first == |s| {
      forall p, m | 0 <= p < |s| && 0 <= m < |months|
        ensures !(MatchesAt(s, p, months[m], false) && SpacesThenYear(s, p + |months[m]|))
      {
        DateAtAnyMonth(s, p, months);
      }
    } else {
      DateAtAnyMonth(s, first, months);
      var m :| 0 <= m < |months| && MatchesAt(s, first, months[m], false) && SpacesThenYear(s, first + |months[m]|);
    }
  }

  /** There is no document date exactly when no month name, at any position, is followed by
    * whitespace and four digits. */
  lemma FindDocDateNone(s: string)
    ensures FindDocDate(s).None? <==> forall p, m :: 0 <= p < |s| && 0 <= m < |MONTHS| ==>
      !(MatchesAt(s, p, MONTHS[m], false) && SpacesThenYear(s, p + |MONTHS[m]|))
  {
    MonthsDistinctStarts();
    FirstDateNone(s, MONTHS);
  }

  /** A date starts with a month name and ends with four digits. */
  lemma DateShape(s: string, p: nat, months: seq<string>)
    requires DateAt(s, p, months)
    ensures var d := s[p..DateEnd(s, p, months)];
      (exists m :: 0 <= m < |months| && StartsWith(d, months[m]))
      && |d| >= 4 && AllDigits(d[|d| - 4..])
  {
    var m := MonthAt(s, p, months, 0);
    var d := s[p..DateEnd(s, p, months)];
    var k := SkipSpaces(s, p + |months[m]|);
    assert d[..|months[m]|] == months[m] by {
      forall t | 0 <= t < |months[m]| ensures d[t] == months[m][t] {
        assert SameChar(s[p + t], months[m][t], false);
      }
    }
    assert d[|d| - 4..] == s[k..k + 4];
  }

  // ---------------------------------------------------------------------------
  // float(...) on the captured digits
  // ---------------------------------------------------------------------------

  function DigitValue(c: char): nat
    requires IsDigit(c)
  {
    c as int - '0' as int
  }

  function DigitsValue(s: string): nat
    requires AllDigits(s)
  {
    if s == [] then 0 else 10 * DigitsValue(s[..|s| - 1]) + DigitValue(s[|s| - 1])
  }

  function Pow10(n: nat): (r: nat)
    ensures r >= 1
  {
    if n == 0 then 1 else 10 * Pow10(n - 1)
  }

  /** The index of the first `.` in `s`, or `|s|`. */
  function DotIndex(s: string): (d: nat)
    ensures d <= |s|
    ensures d < |s| ==> s[d] == '.'
    ensures forall k :: 0 <= k < d ==> s[k] != '.'
  {
    if s == [] then 0 else if s[0] == '.' then 0 else 1 + DotIndex(s[1..])
  }

  /** `float(s)` for the strings the patterns capture: digits with at most one `.` and at least
    * one digit; anything else raises, which leaves the field unset. */
  function ParseDecimal(s: string): Option<real> {
    var d := DotIndex(s);
    var whole := s[..d];
    var frac := if d < |s| then s[d + 1..] else [];
    if AllDigits(whole) && AllDigits(frac) && |whole| + |frac| > 0 then Some(DecimalValue(whole, frac))
    else None
  }

  /** The value of `whole.frac`. */
  function DecimalValue(whole: string, frac: string): real
    requires AllDigits(whole) && AllDigits(frac)
  {
    DigitsValue(whole) as real + DigitsValue(frac) as real / Pow10(|frac|) as real
  }

  /** The decimal digits of `n`. */
  function NatString(n: nat): (s: string)
    ensures s != [] && AllDigits(s) && '.' !in s
  {
    if n < 10 then [('0' as int + n) as char]
    else NatString(n / 10) + [('0' as int + n % 10) as char]
  }

  lemma {:induction false} NatStringValue(n: nat)
    ensures DigitsValue(NatString(n)) == n
  {
    if n >= 10 {
      NatStringValue(n / 10);
      var s := NatString(n);
      assert s[..|s| - 1] == NatString(n / 10);
    }
  }

  /** A whole number written out in digits reads back as itself. */
  lemma ParseNatString(n: nat)
    ensures ParseDecimal(NatString(n)) == Some(n as real)
  {
    var s := NatString(n);
    NatStringValue(n);
    assert forall k :: 0 <= k < |s| ==> s[k] != '.';
    assert s[..|s|] == s;
  }

  /** Digits, a dot and digits read as the whole part plus the fraction. */
  lemma ParseFraction(whole: string, frac: string)
    requires AllDigits(whole) && AllDigits(frac) && |whole| + |frac| > 0
    ensures ParseDecimal(whole + "." + frac) == Some(DecimalValue(whole, frac))
  {
    var s := whole + "." + frac;
    AroundChar(whole, '.', frac);
    assert forall k :: 0 <= k < |whole| ==> s[k] != '.';
    DotIndexAt(s, |whole|);
  }

  lemma AroundChar<T>(a: seq<T>, c: T, b: seq<T>)
    ensures var s := a + [c] + b;
      |s| == |a| + 1 + |b| && s[..|a|] == a && s[|a|] == c && s[|a| + 1..] == b
      && forall k :: 0 <= k < |a| ==> s[k] == a[k]
  {
  }

  lemma {:induction false} DotIndexAt(s: string, d: nat)
    requires d < |s| && s[d] == '.' && forall k :: 0 <= k < d ==> s[k] != '.'
    ensures DotIndex(s) == d
  {
  }

  /** A capture with no digit does not read as a number. */
  lemma ParseRejects(s: string)
    requires forall k :: 0 <= k < |s| ==> !IsDigit(s[k])
    ensures ParseDecimal(s) == None
  {
    var d := DotIndex(s);
    if d < |s| {
      assert |s[..d]| == 0 || !IsDigit(s[..d][0]);
      assert |s[d + 1..]| == 0 || !IsDigit(s[d + 1..][0]);
    } else {
      assert |s[..d]| == 0 || !IsDigit(s[..d][0]);
    }
  }
  /** A capture with two dots does not read as a number: `float("1.2.3")` raises. */
  lemma ParseRejectsTwoDots(whole: string, mid: string, rest: string)
    requires AllDigits(whole)
    ensures ParseDecimal(whole + "." + mid + "." + rest) == None
  {
    var s := whole + "." + (mid + "." + rest);
    assert whole + "." + mid + "." + rest == s;
    AroundChar(whole, '.', mid + "." + rest);
    assert forall k :: 0 <= k < |whole| ==> s[k] != '.' by {
      forall k | 0 <= k < |whole| ensures s[k] != '.' { assert IsDigit(whole[k]); }
    }
    DotIndexAt(s, |whole|);
    var frac := mid + "." + rest;
    assert frac[|mid|] == '.';
  }

  /** `s.replace(",", "")`. */
  function WithoutCommas(s: string): (r: string)
    ensures ',' !in r
    ensures forall c :: c in r ==> c in s
    ensures ',' !in s ==> r == s
  {
    if s == [] then [] else (if s[0] == ',' then [] else [s[0]]) + WithoutCommas(s[1..])
  }

  /** Removing commas works piece by piece: the text before and after each comma is kept. */
  lemma {:induction false} WithoutCommasAppend(a: string, b: string)
    ensures WithoutCommas(a + b) == WithoutCommas(a) + WithoutCommas(b)
    decreases |a|
  {
    if a == [] {
      assert a + b == b;
    } else {
      assert (a + b)[0] == a[0] && (a + b)[1..] == a[1..] + b;
      WithoutCommasAppend(a[1..], b);
    }
  }

  /** A figure with a thousands separator, as in `Net AUM : Rs 12,345.67 crore`, reads once the
    * comma is gone as the digits on both sides run together, and those are worth
    * `high * 10^|low| + low`: `12,345.67` gives `12 * 1000 + 345` and the fraction `67`. */
  lemma GroupedFigure(high: string, low: string, frac: string)
    requires AllDigits(high) && AllDigits(low) && AllDigits(frac) && |high| + |low| + |frac| > 0
    ensures AllDigits(high + low)
    ensures ParseDecimal(WithoutCommas(high + "," + low + "." + frac)) == Some(DecimalValue(high + low, frac))
    ensures DigitsValue(high + low) == DigitsValue(high) * Pow10(|low|) + DigitsValue(low)
  {
    var s := high + "," + low + "." + frac;
    var tail := low + "." + frac;
    DigitsHaveNoComma(high);
    DigitsHaveNoComma(low);
    DigitsHaveNoComma(frac);
    assert s == high + "," + tail;
    DropsTheComma(s, high, tail);
    assert high + tail == (high + low) + "." + frac;
    DigitsValueAppend(high, low);
    ParseFraction(high + low, frac);
    assert WithoutCommas(s) == (high + low) + "." + frac;
  }

  lemma DigitsHaveNoComma(s: string)
    requires AllDigits(s)
    ensures ',' !in s
  {
    forall k | 0 <= k < |s| ensures s[k] != ',' { assert IsDigit(s[k]); }
  }

  lemma DropsTheComma(s: string, a: string, b: string)
    requires s == a + "," + b && ',' !in a && ',' !in b
    ensures WithoutCommas(s) == a + b
  {
    var comma := ",";
    WithoutCommasAppend(a + comma, b);
    WithoutCommasAppend(a, comma);
    assert comma[1..] == [];
    assert WithoutCommas(comma) == [] + WithoutCommas([]);
    assert WithoutCommas(a + comma) == a;
    assert WithoutCommas(b) == b;
  }

  /** Digits written after digits shift the first number left by their count. */
  lemma {:induction false} DigitsValueAppend(a: string, b: string)
    requires AllDigits(a) && AllDigits(b)
    ensures AllDigits(a + b) && DigitsValue(a + b) == DigitsValue(a) * Pow10(|b|) + DigitsValue(b)
    decreases |b|
  {
    if b == [] {
      assert a + b == a;
    } else {
      var init, last := b[..|b| - 1], b[|b| - 1];
      assert AllDigits(init) && IsDigit(last);
      DigitsValueAppend(a, init);
      assert AllDigits(a + b) by {
        forall k | 0 <= k < |a + b| ensures IsDigit((a + b)[k]) {
          if k < |a| { assert (a + b)[k] == a[k]; } else { assert (a + b)[k] == b[k - |a|]; }
        }
      }
      assert (a + b)[..|a + b| - 1] == a + init;
      assert (a + b)[|a + b| - 1] == last;
      var x, p, y, d := DigitsValue(a), Pow10(|init|), DigitsValue(init), DigitValue(last);
      assert DigitsValue(a + b) == 10 * (x * p + y) + d;
      assert Pow10(|b|) == 10 * p && DigitsValue(b) == 10 * y + d;
      ShiftStep(x, p, y, d);
    }
  }

  lemma ShiftStep(x: int, p: int, y: int, d: int)
    ensures 10 * (x * p + y) + d == x * (10 * p) + (10 * y + d)
  {
    assert 10 * (x * p) == x * (10 * p);
  }

  // ---------------------------------------------------------------------------
  // The string values: name, category, benchmarks, manager names
  // ---------------------------------------------------------------------------

  function UpperStr(s: string): (r: string)
    ensures |r| == |s| && forall k :: 0 <= k < |s| ==> r[k] == ToUpper(s[k])
  {
    seq(|s|, k requires 0 <= k < |s| => ToUpper(s[k]))
  }

  /** `"FUND" in text.upper() and len(text) < 120 and not text.upper().startswith("JUNE")`. */
  predicate NamesFund(text: string) {
    var up := UpperStr(text);
    Contains(up, "FUND") && |text| < 120 && !StartsWith(up, "JUNE")
  }

  /** `" ".join(text.split())`. */
  function SingleSpaced(s: string): string {
    JoinWith(Words(s), " ")
  }

  /** `re.sub(r"([a-z])([A-Z])", r"\1 \2", s)` then `" ".join(....split())`: the form of the
    * name and of both benchmarks. */
  function Spaced(s: string): string {
    SingleSpaced(SplitGlued(s, LowerUpper))
  }

  /** `raw.startswith("(") and raw.endswith(")")`; a lone `(` does not qualify. */
  predicate Parenthesized(raw: string) {
    |raw| >= 2 && raw[0] == '(' && raw[|raw| - 1] == ')'
  }

  /** The category inside the parentheses, cleaned again and single-spaced. */
  function CategoryOf(raw: string): string
    requires Parenthesized(raw)
  {
    SingleSpaced(Cleaned(Strip(raw[1..|raw| - 1])))
  }

  /** The words the manager cleanup deletes: `\b(Equity|Debt|Hybrid|Fixed Income)\b`. */
  const DESK_WORDS: seq<string> := ["Equity", "Debt", "Hybrid", "Fixed Income"]

  /** `re.sub(r"\([^)]*\)", "", s)`: every `(` with a `)` after it is removed together with
    * the text up to and including the first such `)`. */
  function DropParenthesized(s: string): (r: string)
    ensures |r| <= |s|
    decreases |s|
  {
    if s == [] then []
    else if s[0] == '(' && ')' in s[1..] then DropParenthesized(s[1..][CloseIndex(s[1..]) + 1..])
    else [s[0]] + DropParenthesized(s[1..])
  }

  /** The index of the first `)`. */
  function CloseIndex(s: string): (k: nat)
    requires ')' in s
    ensures k < |s| && s[k] == ')' && forall j :: 0 <= j < k ==> s[j] != ')'
  {
    if s[0] == ')' then 0 else 1 + CloseIndex(s[1..])
  }

  /** `re.sub(r"^(Mr\.|Ms\.|Mrs\.)\s*", "", s)`. */
  function DropTitle(s: string): string {
    if StartsWith(s, "Mr.") || StartsWith(s, "Ms.") then s[SkipSpaces(s, 3)..]
    else if StartsWith(s, "Mrs.") then s[SkipSpaces(s, 4)..]
    else s
  }

  /** The cleanup every captured manager name goes through. */
  function ManagerName(m: string): string {
    var a := Strip(ReplaceWords(m, DESK_WORDS, "", false, 0));
    var b := Strip(DropParenthesized(a));
    DropTitle(SingleSpaced(b))
  }

  /** Single-spacing puts one plain space between words and none at the ends. */
  lemma SingleSpacedNormalized(s: string)
    ensures Normalized(SingleSpaced(s))
  {
    WordsShape(s);
    JoinedNormalized(Words(s));
  }

  predicate SpaceFreeWords(ws: seq<string>) {
    forall k :: 0 <= k < |ws| ==> ws[k] != [] && forall c :: c in ws[k] ==> !IsSpace(c)
  }

  lemma {:induction false} JoinedNormalized(ws: seq<string>)
    requires SpaceFreeWords(ws)
    ensures Normalized(JoinWith(ws, " "))
    ensures JoinWith(ws, " ") != [] ==> !IsSpace(JoinWith(ws, " ")[0])
  {
    if |ws| == 1 {
      assert forall j :: 0 <= j < |ws[0]| ==> ws[0][j] in ws[0];
    } else if |ws| > 1 {
      var w := ws[0];
      JoinedNormalized(ws[1..]);
      var t := JoinWith(ws[1..], " ");
      var r := w + " " + t;
      assert forall j :: 0 <= j < |w| ==> w[j] in w;
      assert t != [] by { assert ws[1..][0] != []; }
      forall j | 0 <= j < |r| ensures IsSpace(r[j]) ==> r[j] == ' ' {
        if j > |w| { assert r[j] == t[j - |w| - 1]; }
      }
      forall j | 0 <= j < |r| - 1 ensures !(r[j] == ' ' && r[j + 1] == ' ') {
        if j < |w| { assert r[j] == w[j]; }
        else if j == |w| { assert r[j + 1] == t[0]; }
        else { assert r[j] == t[j - |w| - 1] && r[j + 1] == t[j - |w|]; }
      }
      assert r[0] == w[0] && r[|r| - 1] == t[|t| - 1];
    }
  }

  /** Dropping a title from a normalized name leaves it normalized. */
  lemma TitleDroppedNormalized(s: string)
    requires Normalized(s)
    ensures Normalized(DropTitle(s))
  {
    var n := if StartsWith(s, "Mr.") || StartsWith(s, "Ms.") then 3 else if StartsWith(s, "Mrs.") then 4 else 0;
    if n > 0 {
      var k := SkipSpaces(s, n);
      SliceKeepsSpacing(s, k, |s|);
      var r := s[k..];
      assert r == [] || (r[0] == s[k] && r[|r| - 1] == s[|s| - 1]);
    }
  }

  lemma SpacedTitleDroppedNormalized(b: string)
    ensures Normalized(DropTitle(SingleSpaced(b)))
  {
    SingleSpacedNormalized(b);
    TitleDroppedNormalized(SingleSpaced(b));
  }

  /** A cleaned manager name is single-spaced with no space at either end. */
  lemma ManagerNameNormalized(m: string)
    ensures Normalized(ManagerName(m))
  {
    SpacedTitleDroppedNormalized(Strip(DropParenthesized(Strip(ReplaceWords(m, DESK_WORDS, "", false, 0)))));
  }

  // ---------------------------------------------------------------------------
  // The extraction state and one item
  // ---------------------------------------------------------------------------

  /** `meta`, `seen_managers` and `buffer`. */
  datatype MetaState = MetaState(meta: FundMetadata, seen: set<string>, buffer: string)

  function InitState(coverText: string): MetaState {
    MetaState(FundMetadata(None, None, None, None, None, None, None, None, None, [], FindDocDate(coverText)), {}, [])
  }

  /** `if name and name not in seen_managers`: add it to both. */
  function AddName(managers: seq<string>, seen: set<string>, name: string): (seq<string>, set<string>) {
    if name != [] && name !in seen then (managers + [name], seen + {name}) else (managers, seen)
  }

  /** The `for mname in matches` loop of either manager branch. */
  function AddManagers(managers: seq<string>, seen: set<string>, matches: seq<string>): (seq<string>, set<string>) {
    if matches == [] then (managers, seen)
    else
      var (ms, sn) := AddManagers(managers, seen, matches[..|matches| - 1]);
      AddName(ms, sn, ManagerName(matches[|matches| - 1]))
  }

  /** A string field is set to what was found while it is falsy. */
  function Fill(cur: Option<string>, found: Option<string>): Option<string> {
    if Falsy(cur) && found.Some? then found else cur
  }

  function SpacedOpt(found: Option<string>): Option<string> {
    if found.Some? then Some(Spaced(found.value)) else None
  }

  /** A number field is set while it is falsy, when something was found and reads as a number. */
  function FillNum(cur: Option<real>, found: Option<string>, dropCommas: bool): Option<real> {
    if FalsyNum(cur) && found.Some? then
      var v := ParseDecimal(if dropCommas then WithoutCommas(found.value) else found.value);
      if v.Some? then v else cur
    else cur
  }

  /** The eight labelled values, each looked for while its field is falsy. */
  function LabelledValues(m: FundMetadata, text: string, mt: Matchers): FundMetadata {
    m.(dateOfAllotment := Fill(m.dateOfAllotment, mt.allotment(text)),
       benchmark := Fill(m.benchmark, SpacedOpt(mt.benchmark(text))),
       additionalBenchmark := Fill(m.additionalBenchmark, SpacedOpt(mt.additionalBenchmark(text))),
       aumCrore := FillNum(m.aumCrore, mt.netAum(text), true),
       monthlyAvgAum := FillNum(m.monthlyAvgAum, mt.monthlyAum(text), true),
       expenseRatioRegular := FillNum(m.expenseRatioRegular, mt.regularPlan(text), false),
       expenseRatioDirect := FillNum(m.expenseRatioDirect, mt.directPlan(text), false))
  }

  /** `re.search(r"Fund Manager", text, re.IGNORECASE)`. */
  predicate MentionsFundManager(text: string) {
    exists p: nat | p <= |text| :: MatchesAt(text, p, "fund manager", true)
  }

  /** The guard of the `Mr.` continuation branch. */
  predicate ContinuesManagers(st: MetaState, text: string) {
    st.buffer != [] && StartsWith(text, "Mr.")
  }

  /** The two manager branches: the buffer takes the text, the matches found in it are added,
    * and the buffer is emptied. */
  function ManagerStep(st: MetaState, text: string, mt: Matchers): MetaState {
    if MentionsFundManager(text) then
      var (ms, sn) := AddManagers(st.meta.managers, st.seen, mt.fundManagers(st.buffer + " " + text));
      MetaState(st.meta.(managers := ms), sn, [])
    else if ContinuesManagers(st, text) then
      var (ms, sn) := AddManagers(st.meta.managers, st.seen, mt.titledManagers(st.buffer + " " + text));
      MetaState(st.meta.(managers := ms), sn, [])
    else st
  }

  /** The rules for a cleaned text that is not noise, in the order the source tries them. */
  function TextStep(st: MetaState, text: string, mt: Matchers): MetaState {
    if Falsy(st.meta.name) && NamesFund(text) then
      st.(meta := st.meta.(name := Some(Spaced(text))))
    else if !Falsy(st.meta.name) && Falsy(st.meta.category) && Parenthesized(Strip(text)) then
      st.(meta := st.meta.(category := Some(CategoryOf(Strip(text)))))
    else
      ManagerStep(st.(meta := LabelledValues(st.meta, text, mt)), text, mt)
  }

  /** A cleaned text: noise is skipped. */
  function CleanedStep(st: MetaState, text: string, mt: Matchers): MetaState {
    if IsNoise(text) then st else TextStep(st, text, mt)
  }

  /** Only headings and paragraphs with text are looked at. */
  predicate Considered(c: ContentItem) {
    (c.kind == ParagraphItem || c.kind == HeadingItem) && c.text.Some? && c.text.value != []
  }

  /** One content item. */
  function ItemStep(st: MetaState, c: ContentItem, mt: Matchers): MetaState {
    if Considered(c) then CleanedStep(st, Cleaned(c.text.value), mt) else st
  }

  function FoldItems(st: MetaState, items: seq<ContentItem>, mt: Matchers): MetaState {
    if items == [] then st else ItemStep(FoldItems(st, items[..|items| - 1], mt), items[|items| - 1], mt)
  }

  function FoldPages(st: MetaState, contents: seq<seq<ContentItem>>, mt: Matchers): MetaState {
    if contents == [] then st
    else FoldItems(FoldPages(st, contents[..|contents| - 1], mt), contents[|contents| - 1], mt)
  }

  /** `extract_fund_metadata_from_content` on the pages' contents. */
  function ExtractedMetadata(contents: seq<seq<ContentItem>>, coverText: string, mt: Matchers): FundMetadata {
    FoldPages(InitState(coverText), contents, mt).meta
  }

  // ---------------------------------------------------------------------------
  // Properties
  // ---------------------------------------------------------------------------

  predicate NoDuplicates(s: seq<string>) {
    forall i, j :: 0 <= i < j < |s| ==> s[i] != s[j]
  }

  /** The manager list has no duplicates and `seen_managers` holds exactly its names. */
  ghost predicate RosterOk(managers: seq<string>, seen: set<string>) {
    NoDuplicates(managers) && forall x :: x in seen <==> x in managers
  }

  /** What holds between items: the roster is consistent and the buffer is empty. */
  ghost predicate Between(st: MetaState) {
    RosterOk(st.meta.managers, st.seen) && st.buffer == []
  }

  /** Adding names keeps the roster consistent and only appends to the list. */
  lemma {:induction false} AddManagersRoster(managers: seq<string>, seen: set<string>, matches: seq<string>)
    requires RosterOk(managers, seen)
    ensures RosterOk(AddManagers(managers, seen, matches).0, AddManagers(managers, seen, matches).1)
    ensures managers <= AddManagers(managers, seen, matches).0
  {
    if matches != [] {
      var (ms, sn) := AddManagers(managers, seen, matches[..|matches| - 1]);
      AddManagersRoster(managers, seen, matches[..|matches| - 1]);
      var name := ManagerName(matches[|matches| - 1]);
      if name != [] && name !in sn {
        forall i, j | 0 <= i < j < |ms + [name]| ensures (ms + [name])[i] != (ms + [name])[j] {
          if j == |ms| { assert ms[i] in ms; }
        }
      }
    }
  }

  /** Every step keeps the roster consistent, empties the buffer, only appends managers and
    * never touches the document date. */
  lemma ItemStepKeeps(st: MetaState, c: ContentItem, mt: Matchers)
    requires Between(st)
    ensures Between(ItemStep(st, c, mt))
    ensures st.meta.managers <= ItemStep(st, c, mt).meta.managers
    ensures ItemStep(st, c, mt).meta.docDate == st.meta.docDate
  {
    if Considered(c) && !IsNoise(Cleaned(c.text.value)) {
      TextStepKeeps(st, Cleaned(c.text.value), mt);
    }
  }

  lemma TextStepKeeps(st: MetaState, text: string, mt: Matchers)
    requires Between(st)
    ensures Between(TextStep(st, text, mt))
    ensures st.meta.managers <= TextStep(st, text, mt).meta.managers
    ensures TextStep(st, text, mt).meta.docDate == st.meta.docDate
  {
    if !(Falsy(st.meta.name) && NamesFund(text)) && !(!Falsy(st.meta.name) && Falsy(st.meta.category) && Parenthesized(Strip(text))) {
      var st1 := st.(meta := LabelledValues(st.meta, text, mt));
      ManagerStepKeeps(st1, text, mt);
    }
  }

  lemma ManagerStepKeeps(st: MetaState, text: string, mt: Matchers)
    requires Between(st)
    ensures Between(ManagerStep(st, text, mt))
    ensures st.meta.managers <= ManagerStep(st, text, mt).meta.managers
    ensures ManagerStep(st, text, mt).meta.docDate == st.meta.docDate
  {
    AddManagersRoster(st.meta.managers, st.seen, mt.fundManagers(st.buffer + " " + text));
  }

  /** Between items the buffer is empty, so the `Mr.` continuation can never fire. */
  lemma ContinuationNeverFires(st: MetaState, text: string)
    requires Between(st)
    ensures !ContinuesManagers(st, text)
  {
  }

  /** A scalar field that is already truthy is never overwritten. A falsy `0.0` or `""` is not
    * protected. */
  lemma TruthyFieldsKept(st: MetaState, text: string, mt: Matchers)
    ensures var m := st.meta;
      var r := CleanedStep(st, text, mt).meta;
      && (!Falsy(m.name) ==> r.name == m.name)
      && (!Falsy(m.category) ==> r.category == m.category)
      && (!Falsy(m.dateOfAllotment) ==> r.dateOfAllotment == m.dateOfAllotment)
      && (!Falsy(m.benchmark) ==> r.benchmark == m.benchmark)
      && (!Falsy(m.additionalBenchmark) ==> r.additionalBenchmark == m.additionalBenchmark)
      && (!FalsyNum(m.aumCrore) ==> r.aumCrore == m.aumCrore)
      && (!FalsyNum(m.monthlyAvgAum) ==> r.monthlyAvgAum == m.monthlyAvgAum)
      && (!FalsyNum(m.expenseRatioRegular) ==> r.expenseRatioRegular == m.expenseRatioRegular)
      && (!FalsyNum(m.expenseRatioDirect) ==> r.expenseRatioDirect == m.expenseRatioDirect)
      && r.docDate == m.docDate
  {
    if !IsNoise(text) && !(Falsy(st.meta.name) && NamesFund(text))
      && !(!Falsy(st.meta.name) && Falsy(st.meta.category) && Parenthesized(Strip(text))) {
      var st1 := st.(meta := LabelledValues(st.meta, text, mt));
      LabelledValuesKeep(st.meta, text, mt);
      ManagerStepOnlyManagers(st1, text, mt);
    }
  }

  /** The labelled values only fill falsy fields, and leave the name, the category and the
    * date alone. */
  lemma LabelledValuesKeep(m: FundMetadata, text: string, mt: Matchers)
    ensures var r := LabelledValues(m, text, mt);
      && r.name == m.name && r.category == m.category && r.docDate == m.docDate
      && (!Falsy(m.dateOfAllotment) ==> r.dateOfAllotment == m.dateOfAllotment)
      && (!Falsy(m.benchmark) ==> r.benchmark == m.benchmark)
      && (!Falsy(m.additionalBenchmark) ==> r.additionalBenchmark == m.additionalBenchmark)
      && (!FalsyNum(m.aumCrore) ==> r.aumCrore == m.aumCrore)
      && (!FalsyNum(m.monthlyAvgAum) ==> r.monthlyAvgAum == m.monthlyAvgAum)
      && (!FalsyNum(m.expenseRatioRegular) ==> r.expenseRatioRegular == m.expenseRatioRegular)
      && (!FalsyNum(m.expenseRatioDirect) ==> r.expenseRatioDirect == m.expenseRatioDirect)
  {
  }

  /** The manager rules change the managers, the seen set and the buffer, and no other field. */
  lemma ManagerStepOnlyManagers(st: MetaState, text: string, mt: Matchers)
    ensures ManagerStep(st, text, mt).meta == st.meta.(managers := ManagerStep(st, text, mt).meta.managers)
  {
  }

  /** The item that names the fund sets the name and nothing else: the `continue` keeps the
    * later rules from seeing it. */
  lemma NameItemConsumed(st: MetaState, text: string, mt: Matchers)
    requires !IsNoise(text) && Falsy(st.meta.name) && NamesFund(text)
    ensures CleanedStep(st, text, mt) == st.(meta := st.meta.(name := Some(Spaced(text))))
  {
  }

  /** A number field found as `0.0` stays open: a later item can still set it. */
  lemma ZeroStaysOpen(cur: real, found: string)
    requires cur == 0.0 && ParseDecimal(found).Some?
    ensures FillNum(Some(cur), Some(found), false) == ParseDecimal(found)
  {
  }

  lemma FoldItemsKeeps(st: MetaState, items: seq<ContentItem>, mt: Matchers)
    requires Between(st)
    ensures Between(FoldItems(st, items, mt))
    ensures st.meta.managers <= FoldItems(st, items, mt).meta.managers
    ensures FoldItems(st, items, mt).meta.docDate == st.meta.docDate
    decreases |items|
  {
    if items != [] {
      FoldItemsKeeps(st, items[..|items| - 1], mt);
      ItemStepKeeps(FoldItems(st, items[..|items| - 1], mt), items[|items| - 1], mt);
    }
  }

  lemma FoldPagesKeeps(st: MetaState, contents: seq<seq<ContentItem>>, mt: Matchers)
    requires Between(st)
    ensures Between(FoldPages(st, contents, mt))
    ensures FoldPages(st, contents, mt).meta.docDate == st.meta.docDate
    decreases |contents|
  {
    if contents != [] {
      FoldPagesKeeps(st, contents[..|contents| - 1], mt);
      FoldItemsKeeps(FoldPages(st, contents[..|contents| - 1], mt), contents[|contents| - 1], mt);
    }
  }

  /** The managers of the result have no duplicates, every item starts with an empty buffer,
    * and the document date is the one found on the cover. */
  lemma ExtractedMetadataShape(contents: seq<seq<ContentItem>>, coverText: string, mt: Matchers)
    ensures NoDuplicates(ExtractedMetadata(contents, coverText, mt).managers)
    ensures FoldPages(InitState(coverText), contents, mt).buffer == []
    ensures ExtractedMetadata(contents, coverText, mt).docDate == FindDocDate(coverText)
  {
    FoldPagesKeeps(InitState(coverText), contents, mt);
  }

  // ---------------------------------------------------------------------------
  // The extractor
  // ---------------------------------------------------------------------------

  /** The `for mname in matches` loop. */
  method AddManagersLoop(managers0: seq<string>, seen0: set<string>, matches: seq<string>)
    returns (managers: seq<string>, seen: set<string>)
    ensures (managers, seen) == AddManagers(managers0, seen0, matches)
  {
    managers, seen := managers0, seen0;
    for k := 0 to |matches|
      invariant (managers, seen) == AddManagers(managers0, seen0, matches[..k])
    {
      assert matches[..k + 1][..k] == matches[..k];
      var name := ManagerName(matches[k]);
      if name != [] && name !in seen {
        seen := seen + {name};
        managers := managers + [name];
      }
    }
    assert matches[..|matches|] == matches;
  }

  /** The state `extract_fund_metadata_from_content` carries from item to item. */
  class MetadataExtractor {
    var meta: FundMetadata
    var seenManagers: set<string>
    var buffer: string

    function State(): MetaState
      reads this
    {
      MetaState(meta, seenManagers, buffer)
    }

    /** Every field unset, no managers, and the document date searched on the cover. */
    constructor (coverText: string)
      ensures State() == InitState(coverText)
    {
      var docDate := FindDocDate(coverText);
      meta := FundMetadata(None, None, None, None, None, None, None, None, None, [], docDate);
      seenManagers := {};
      buffer := [];
    }

    /** The body of the inner loop for one content item. */
    method ProcessItem(c: ContentItem, mt: Matchers)
      modifies this
      ensures State() == ItemStep(old(State()), c, mt)
    {
      if !Considered(c) {
        return;
      }
      var text := Cleaned(c.text.value);
      ProcessCleaned(text, mt);
    }

    method ProcessCleaned(text: string, mt: Matchers)
      modifies this
      ensures State() == CleanedStep(old(State()), text, mt)
    {
      if IsNoise(text) {
        return;
      }
      if Falsy(meta.name) && NamesFund(text) {
        meta := meta.(name := Some(Spaced(text)));
        return;
      }
      var raw := Strip(text);
      if !Falsy(meta.name) && Falsy(meta.category) && Parenthesized(raw) {
        meta := meta.(category := Some(CategoryOf(raw)));
        return;
      }
      meta := LabelledValues(meta, text, mt);
      ProcessManagers(text, mt);
    }

    method ProcessManagers(text: string, mt: Matchers)
      modifies this
      ensures State() == ManagerStep(old(State()), text, mt)
    {
      if MentionsFundManager(text) {
        buffer := buffer + " " + text;
        var ms, sn := AddManagersLoop(meta.managers, seenManagers, mt.fundManagers(buffer));
        meta := meta.(managers := ms);
        seenManagers := sn;
        buffer := [];
        return;
      }
      if buffer != [] && StartsWith(text, "Mr.") {
        buffer := buffer + " " + text;
        var ms, sn := AddManagersLoop(meta.managers, seenManagers, mt.titledManagers(buffer));
        meta := meta.(managers := ms);
        seenManagers := sn;
        buffer := [];
      }
    }
  }

  /** The pages' contents, in page order. */
  function Contents(pages: seq<Page>): (r: seq<seq<ContentItem>>)
    reads set p | p in pages
    ensures |r| == |pages|
    ensures forall i :: 0 <= i < |pages| ==> r[i] == pages[i].content
  {
    if pages == [] then [] else Contents(pages[..|pages| - 1]) + [pages[|pages| - 1].content]
  }

  lemma FoldItemsSnoc(st: MetaState, items: seq<ContentItem>, j: nat, mt: Matchers)
    requires j < |items|
    ensures FoldItems(st, items[..j + 1], mt) == ItemStep(FoldItems(st, items[..j], mt), items[j], mt)
  {
    assert items[..j + 1][..j] == items[..j];
  }

  lemma FoldPagesSnoc(st: MetaState, contents: seq<seq<ContentItem>>, i: nat, mt: Matchers)
    requires i < |contents|
    ensures FoldPages(st, contents[..i + 1], mt) == FoldItems(FoldPages(st, contents[..i], mt), contents[i], mt)
  {
    assert contents[..i + 1][..i] == contents[..i];
  }

  /** `extract_fund_metadata_from_content`: every item of every page, in order. */
  method ExtractFundMetadata(pages: seq<Page>, coverText: string, mt: Matchers) returns (meta: FundMetadata)
    ensures meta == ExtractedMetadata(Contents(pages), coverText, mt)
  {
    ghost var contents := Contents(pages);
    var ex := new MetadataExtractor(coverText);
    for i := 0 to |pages|
      invariant ex.State() == FoldPages(InitState(coverText), contents[..i], mt)
    {
      var items := pages[i].content;
      assert items == contents[i];
      ghost var before := ex.State();
      for j := 0 to |items|
        invariant ex.State() == FoldItems(before, items[..j], mt)
      {
        FoldItemsSnoc(before, items, j, mt);
        ex.ProcessItem(items[j], mt);
      }
      assert items[..|items|] == items;
      FoldPagesSnoc(InitState(coverText), contents, i, mt);
    }
    assert contents[..|pages|] == contents;
    meta := ex.meta;
  }
}
