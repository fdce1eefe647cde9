/**
 * The text normaliser of the factsheet parser: `clean_text`, `fix_glued_domain_terms`,
 * `is_noise`, and the Python string helpers they rely on (`strip`, `split`, `" ".join`).
 * Every regular expression of the source is written out as a left-to-right scan that
 * follows the non-overlapping, leftmost matching of `re.sub` / `re.search`.
 */
module Text {
  import opened CharClass

  // ---------------------------------------------------------------------------
  // Python string helpers
  // ---------------------------------------------------------------------------

  /** `s` has no leading and no trailing whitespace. */
  predicate Trimmed(s: string) {
    s == [] || (!IsSpace(s[0]) && !IsSpace(s[|s| - 1]))
  }

  /** `s.startswith(prefix)`. */
  predicate StartsWith(s: string, prefix: string) {
    |prefix| <= |s| && s[..|prefix|] == prefix
  }

  /** `str.lstrip()`. */
  function StripStart(s: string): (r: string)
    ensures |r| <= |s| && r == s[|s| - |r|..]
    ensures r != [] ==> !IsSpace(r[0])
    ensures forall k :: 0 <= k < |s| - |r| ==> IsSpace(s[k])
  {
    if s != [] && IsSpace(s[0]) then
      var r := StripStart(s[1..]);
      assert s[1..][|s| - 1 - |r|..] == s[|s| - |r|..];
      assert forall k :: 1 <= k < |s| - |r| ==> s[k] == s[1..][k - 1];
      r
    else s
  }

  /** `str.rstrip()`. */
  function StripEnd(s: string): (r: string)
    ensures |r| <= |s| && r == s[..|r|]
    ensures r != [] ==> !IsSpace(r[|r| - 1])
    ensures forall k :: |r| <= k < |s| ==> IsSpace(s[k])
  {
    if s != [] && IsSpace(s[|s| - 1]) then
      var r := StripEnd(s[..|s| - 1]);
      assert forall k :: |r| <= k < |s| - 1 ==> s[k] == s[..|s| - 1][k];
      r
    else s
  }

  /** `str.strip()`: the longest slice of `s` that has no whitespace at either end. */
  function Strip(s: string): (r: string)
    ensures Trimmed(r)
    ensures StripOffset(s) + |r| <= |s| && r == s[StripOffset(s)..StripOffset(s) + |r|]
    ensures Trimmed(s) ==> r == s
    ensures r == [] <==> forall k :: 0 <= k < |s| ==> IsSpace(s[k])
  {
    StripEnd(StripStart(s))
  }

  /** The number of leading whitespace characters `Strip` removes. */
  function StripOffset(s: string): nat {
    |s| - |StripStart(s)|
  }

  /** First index at or after `i` that does not hold whitespace. */
  function SkipSpaces(s: string, i: nat): (j: nat)
    requires i <= |s|
    ensures i <= j <= |s|
    ensures forall k :: i <= k < j ==> IsSpace(s[k])
    ensures j < |s| ==> !IsSpace(s[j])
    decreases |s| - i
  {
    if i < |s| && IsSpace(s[i]) then SkipSpaces(s, i + 1) else i
  }

  /** First index at or after `i` that holds whitespace. */
  function SkipNonSpaces(s: string, i: nat): (j: nat)
    requires i <= |s|
    ensures i <= j <= |s|
    ensures forall k :: i <= k < j ==> !IsSpace(s[k])
    ensures j < |s| ==> IsSpace(s[j])
    decreases |s| - i
  {
    if i < |s| && !IsSpace(s[i]) then SkipNonSpaces(s, i + 1) else i
  }

  /** `str.split()` with no argument: the maximal runs of non-whitespace. */
  function Words(s: string): seq<string>
    decreases |s|
  {
    var i := SkipSpaces(s, 0);
    if i == |s| then []
    else
      var j := SkipNonSpaces(s, i);
      [s[i..j]] + Words(s[j..])
  }

  /** The words are non-empty runs of non-whitespace, and there are none exactly when the text
    * is all whitespace. */
  lemma {:induction false} WordsShape(s: string)
    ensures forall k :: 0 <= k < |Words(s)| ==> Words(s)[k] != [] && forall c :: c in Words(s)[k] ==> !IsSpace(c)
    ensures Words(s) == [] <==> forall k :: 0 <= k < |s| ==> IsSpace(s[k])
    decreases |s|
  {
    var i := SkipSpaces(s, 0);
    if i < |s| {
      var j := SkipNonSpaces(s, i);
      WordsShape(s[j..]);
      var ws := Words(s);
      assert ws == [s[i..j]] + Words(s[j..]);
      forall k | 0 <= k < |ws| ensures ws[k] != [] && forall c :: c in ws[k] ==> !IsSpace(c) {
        if k > 0 { assert ws[k] == Words(s[j..])[k - 1]; }
      }
    }
  }

  /** `sep.join(parts)`. */
  function JoinWith(parts: seq<string>, sep: string): string {
    if parts == [] then []
    else if |parts| == 1 then parts[0]
    else parts[0] + sep + JoinWith(parts[1..], sep)
  }

  lemma {:induction false} SkipSpacesPrefix(a: string, r: string, i: nat)
    requires i <= |a| && SkipSpaces(a, i) < |a|
    ensures SkipSpaces(a + r, i) == SkipSpaces(a, i)
    decreases |a| - i
  {
    assert (a + r)[i] == a[i];
    if IsSpace(a[i]) {
      SkipSpacesPrefix(a, r, i + 1);
    }
  }

  lemma {:induction false} SkipNonSpacesPrefix(a: string, r: string, i: nat)
    requires i <= |a|
    requires SkipNonSpaces(a, i) < |a| || (r != [] && IsSpace(r[0]))
    ensures SkipNonSpaces(a + r, i) == SkipNonSpaces(a, i)
    decreases |a| - i
  {
    if i < |a| {
      assert (a + r)[i] == a[i];
      if !IsSpace(a[i]) {
        SkipNonSpacesPrefix(a, r, i + 1);
      }
    } else {
      assert r != [] ==> (a + r)[i] == r[0];
    }
  }

  lemma {:induction false} SkipSpacesOverSpaces(s: string, i: nat, n: nat)
    requires i <= n <= |s|
    requires forall k :: i <= k < n ==> IsSpace(s[k])
    ensures SkipSpaces(s, i) == SkipSpaces(s, n)
    decreases n - i
  {
    if i < n {
      SkipSpacesOverSpaces(s, i + 1, n);
    }
  }

  /** Whitespace in front of a text adds no words. */
  lemma WordsAfterSpaces(a: string, b: string)
    requires forall k :: 0 <= k < |a| ==> IsSpace(a[k])
    ensures Words(a + b) == Words(b)
  {
    var i := SkipSpaces(b, 0);
    SpacesThenFirstWord(a, b);
    if i < |b| {
      var j := SkipNonSpaces(b, i);
      WordsStep(a + b, |a| + i, |a| + j);
      SlicesOfSuffix(a, b, i, j);
      WordsStep(b, i, j);
    } else {
      WordsOfBlank(a + b);
      WordsOfBlank(b);
    }
  }

  /** Text that `SkipSpaces` crosses entirely has no words. */
  lemma WordsOfBlank(s: string)
    requires SkipSpaces(s, 0) == |s|
    ensures Words(s) == []
  {
  }

  /** Past leading whitespace, the first word of `a + b` is that of `b`. */
  lemma SpacesThenFirstWord(a: string, b: string)
    requires forall k :: 0 <= k < |a| ==> IsSpace(a[k])
    ensures SkipSpaces(a + b, 0) == |a| + SkipSpaces(b, 0)
    ensures SkipSpaces(b, 0) < |b| ==>
      SkipNonSpaces(a + b, |a| + SkipSpaces(b, 0)) == |a| + SkipNonSpaces(b, SkipSpaces(b, 0))
  {
    var s := a + b;
    forall k | 0 <= k < |a| ensures IsSpace(s[k]) { assert s[k] == a[k]; }
    SkipSpacesOverSpaces(s, 0, |a|);
    SkipSpacesInSuffix(a, b, 0);
    if SkipSpaces(b, 0) < |b| {
      SkipNonSpacesInSuffix(a, b, SkipSpaces(b, 0));
    }
  }

  lemma SlicesOfSuffix(a: string, b: string, i: nat, j: nat)
    requires i <= j <= |b|
    ensures (a + b)[|a| + i..|a| + j] == b[i..j] && (a + b)[|a| + j..] == b[j..]
  {
  }

  /** One step of `Words`: the first word runs from `i` to `j`. */
  lemma WordsStep(s: string, i: nat, j: nat)
    requires i == SkipSpaces(s, 0) < |s| && j == SkipNonSpaces(s, i)
    ensures Words(s) == [s[i..j]] + Words(s[j..])
  {
  }

  lemma {:induction false} SkipSpacesInSuffix(a: string, b: string, i: nat)
    requires i <= |b|
    ensures SkipSpaces(a + b, |a| + i) == |a| + SkipSpaces(b, i)
    decreases |b| - i
  {
    if i < |b| {
      assert (a + b)[|a| + i] == b[i];
      if IsSpace(b[i]) {
        SkipSpacesInSuffix(a, b, i + 1);
      }
    }
  }

  lemma {:induction false} SkipNonSpacesInSuffix(a: string, b: string, i: nat)
    requires i <= |b|
    ensures SkipNonSpaces(a + b, |a| + i) == |a| + SkipNonSpaces(b, i)
    decreases |b| - i
  {
    if i < |b| {
      assert (a + b)[|a| + i] == b[i];
      if !IsSpace(b[i]) {
        SkipNonSpacesInSuffix(a, b, i + 1);
      }
    }
  }

  /** Whitespace after a text adds no words. */
  lemma {:induction false} WordsBeforeSpaces(a: string, b: string)
    requires forall k :: 0 <= k < |b| ==> IsSpace(b[k])
    ensures Words(a + b) == Words(a)
    decreases |a|
  {
    var s := a + b;
    var i := SkipSpaces(a, 0);
    if b == [] {
      assert s == a;
    } else if i == |a| {
      assert forall k :: 0 <= k < |s| ==> IsSpace(s[k]) by {
        forall k | 0 <= k < |s| ensures IsSpace(s[k]) {
          if k < |a| { assert s[k] == a[k]; } else { assert s[k] == b[k - |a|]; }
        }
      }
    } else {
      SkipSpacesPrefix(a, b, 0);
      var j := SkipNonSpaces(a, i);
      SkipNonSpacesPrefix(a, b, i);
      assert s[i..j] == a[i..j];
      assert s[j..] == a[j..] + b;
      WordsBeforeSpaces(a[j..], b);
    }
  }

  /** `(a + " " + b).split() == a.split() + b.split()`. */
  lemma {:induction false} WordsAroundSpace(a: string, b: string)
    ensures Words(a + " " + b) == Words(a) + Words(b)
    decreases |a|
  {
    var i := SkipSpaces(a, 0);
    if i == |a| {
      BlankThenSpace(a, b);
    } else {
      var j := SkipNonSpaces(a, i);
      FirstWordBeforeSpace(a, b, i, j);
      WordsAroundSpace(a[j..], b);
      assert [a[i..j]] + (Words(a[j..]) + Words(b)) == ([a[i..j]] + Words(a[j..])) + Words(b);
    }
  }

  /** A blank text has no words, and neither has it with a space appended. */
  lemma BlankThenSpace(a: string, b: string)
    requires SkipSpaces(a, 0) == |a|
    ensures Words(a) == [] && Words(a + " " + b) == Words(b)
  {
    var sp := a + " ";
    forall k | 0 <= k < |sp| ensures IsSpace(sp[k]) {
      if k < |a| { assert sp[k] == a[k]; }
    }
    WordsAfterSpaces(sp, b);
  }

  /** The first word of `a` is also the first word of `a + " " + b`. */
  lemma FirstWordBeforeSpace(a: string, b: string, i: nat, j: nat)
    requires i == SkipSpaces(a, 0) < |a| && j == SkipNonSpaces(a, i)
    ensures Words(a) == [a[i..j]] + Words(a[j..])
    ensures Words(a + " " + b) == [a[i..j]] + Words(a[j..] + " " + b)
  {
    var s := a + " " + b;
    assert s == a + (" " + b);
    SkipSpacesPrefix(a, " " + b, 0);
    SkipNonSpacesPrefix(a, " " + b, i);
    WordsStep(s, i, j);
    assert s[i..j] == a[i..j];
    assert s[j..] == a[j..] + " " + b;
  }

  /** Stripping a text keeps its words. */
  lemma StripKeepsWords(s: string)
    ensures Words(Strip(s)) == Words(s)
  {
    var off := StripOffset(s);
    var n := off + |Strip(s)|;
    StripSurroundings(s);
    ThreeSlices(s, off, n);
    WordsAfterSpaces(s[..off], s[off..n] + s[n..]);
    WordsBeforeSpaces(s[off..n], s[n..]);
  }

  /** What `Strip` removes is whitespace. */
  lemma StripSurroundings(s: string)
    ensures var off := StripOffset(s); var n := off + |Strip(s)|;
      (forall k :: 0 <= k < |s[..off]| ==> IsSpace(s[..off][k])) && (forall k :: 0 <= k < |s[n..]| ==> IsSpace(s[n..][k]))
  {
    var t := StripStart(s);
    var r := StripEnd(t);
    var off := |s| - |t|;
    assert Strip(s) == r && StripOffset(s) == off;
    assert t == s[off..];
    StrippedFront(s, off);
    StrippedBack(s, t, r, off, off + |r|);
  }

  lemma StrippedFront(s: string, off: nat)
    requires off <= |s| && forall k :: 0 <= k < off ==> IsSpace(s[k])
    ensures forall k :: 0 <= k < |s[..off]| ==> IsSpace(s[..off][k])
  {
    forall k | 0 <= k < |s[..off]| ensures IsSpace(s[..off][k]) {
      assert s[..off][k] == s[k];
    }
  }

  lemma StrippedBack(s: string, t: string, r: string, off: nat, n: nat)
    requires off <= |s| && t == s[off..] && |r| <= |t| && n == off + |r|
    requires forall k :: |r| <= k < |t| ==> IsSpace(t[k])
    ensures forall k :: 0 <= k < |s[n..]| ==> IsSpace(s[n..][k])
  {
    forall k | 0 <= k < |s[n..]| ensures IsSpace(s[n..][k]) {
      assert s[n..][k] == s[n + k] == t[|r| + k];
    }
  }

  lemma ThreeSlices(s: string, a: nat, b: nat)
    requires a <= b <= |s|
    ensures s == s[..a] + (s[a..b] + s[b..])
  {
  }

  /** Every whitespace character of `s` is the plain space. */
  predicate OnlyPlainSpaces(s: string) {
    forall i :: 0 <= i < |s| ==> IsSpace(s[i]) ==> s[i] == ' '
  }

  /** `s` never has two spaces in a row. */
  predicate NoDoubleSpace(s: string) {
    forall i :: 0 <= i < |s| - 1 ==> !(s[i] == ' ' && s[i + 1] == ' ')
  }

  /** The shape `clean_text` promises: single plain spaces between non-blank text. */
  predicate Normalized(s: string) {
    OnlyPlainSpaces(s) && NoDoubleSpace(s) && Trimmed(s)
  }

  lemma SliceKeepsSpacing(s: string, a: nat, b: nat)
    requires a <= b <= |s|
    requires OnlyPlainSpaces(s) && NoDoubleSpace(s)
    ensures OnlyPlainSpaces(s[a..b]) && NoDoubleSpace(s[a..b])
  {
    var t := s[a..b];
    forall i | 0 <= i < |t| - 1 ensures !(t[i] == ' ' && t[i + 1] == ' ') {
      assert t[i] == s[a + i] && t[i + 1] == s[a + i + 1];
    }
  }

  lemma StripKeepsSpacing(s: string)
    requires OnlyPlainSpaces(s) && NoDoubleSpace(s)
    ensures Normalized(Strip(s))
  {
    var off := StripSlice(s);
    SliceNormalized(s, off, Strip(s));
  }

  lemma SliceNormalized(s: string, a: nat, r: string)
    requires a + |r| <= |s| && r == s[a..a + |r|] && Trimmed(r)
    requires OnlyPlainSpaces(s) && NoDoubleSpace(s)
    ensures Normalized(r)
  {
    SliceKeepsSpacing(s, a, a + |r|);
  }

  /** `Strip(s)` is the slice of `s` that starts at `off`. */
  lemma StripSlice(s: string) returns (off: nat)
    ensures off + |Strip(s)| <= |s| && Strip(s) == s[off..off + |Strip(s)|] && Trimmed(Strip(s))
  {
    off := StripOffset(s);
  }

  // ---------------------------------------------------------------------------
  // clean_text (parse_factsheet.py:41-61)
  // ---------------------------------------------------------------------------

  /** The characters the first two rewrites turn into a plain space: tab, U+00A0, U+2007, U+202F. */
  predicate IsOddBlank(c: char) {
    c == '\t' || c == '\U{A0}' || c == '\U{2007}' || c == '\U{202F}'
  }

  /** `t.replace("\t", " ")` followed by `re.sub(r"[   ]", " ", t)`. */
  function BlankOddSpaces(s: string): (r: string)
    ensures |r| == |s|
    ensures forall k :: 0 <= k < |s| ==> r[k] == (if IsOddBlank(s[k]) then ' ' else s[k])
  {
    seq(|s|, k requires 0 <= k < |s| => if IsOddBlank(s[k]) then ' ' else s[k])
  }

  /** `re.sub(r"(\w)-\s+(\w)", r"\1\2", t)`: a word character, a hyphen, whitespace and a word
    * character become the two word characters. Scanning resumes after the second one. */
  function JoinHyphenated(s: string): (r: string)
    ensures |r| <= |s|
    decreases |s|
  {
    if s == [] then []
    else if |s| >= 3 && IsWordChar(s[0]) && s[1] == '-' && IsSpace(s[2])
            && SkipSpaces(s, 2) < |s| && IsWordChar(s[SkipSpaces(s, 2)]) then
      var q := SkipSpaces(s, 2);
      [s[0], s[q]] + JoinHyphenated(s[q + 1..])
    else [s[0]] + JoinHyphenated(s[1..])
  }

  /** `re.sub(r"\s+", " ", t)`. */
  function CollapseWhitespace(s: string): (r: string)
    ensures r == [] <==> s == []
    ensures r != [] ==> (r[0] == ' ' <==> IsSpace(s[0]))
    ensures OnlyPlainSpaces(r) && NoDoubleSpace(r)
    decreases |s|
  {
    if s == [] then []
    else if IsSpace(s[0]) then
      var rest := CollapseWhitespace(s[SkipSpaces(s, 0)..]);
      assert rest != [] ==> rest[0] != ' ';
      [' '] + rest
    else
      var rest := CollapseWhitespace(s[1..]);
      assert rest != [] && rest[0] == ' ' ==> s[0] != ' ';
      [s[0]] + rest
  }

  /** Collapsing whitespace keeps every word, in order: only the whitespace between them
    * changes. */
  lemma {:induction false} CollapseKeepsWords(s: string)
    ensures Words(CollapseWhitespace(s)) == Words(s)
    decreases |s|
  {
    if s != [] {
      if IsSpace(s[0]) {
        var i := SkipSpaces(s, 0);
        var rest := s[i..];
        CollapseKeepsWords(rest);
        WordsAfterSpaces(" ", CollapseWhitespace(rest));
        assert s == s[..i] + rest;
        WordsAfterSpaces(s[..i], rest);
      } else {
        var rest := s[1..];
        CollapseKeepsWords(rest);
        WordsCons(s[0], CollapseWhitespace(rest));
        WordsCons(s[0], rest);
        assert s == [s[0]] + rest;
      }
    }
  }

  /** The words of a text behind a non-whitespace character: it joins the first word when the
    * text starts with one, and is a word of its own otherwise. */
  lemma WordsCons(c: char, x: string)
    requires !IsSpace(c)
    ensures Words([c] + x) ==
      if x != [] && !IsSpace(x[0]) then [[c] + Words(x)[0]] + Words(x)[1..] else [[c]] + Words(x)
  {
    var s := [c] + x;
    assert SkipSpaces(s, 0) == 0;
    SkipNonSpacesInSuffix([c], x, 0);
    var j := SkipNonSpaces(x, 0);
    WordsStep(s, 0, 1 + j);
    assert s[1 + j..] == x[j..];
    if x != [] && !IsSpace(x[0]) {
      assert SkipSpaces(x, 0) == 0;
      WordsStep(x, 0, j);
      assert s[0..1 + j] == [c] + x[0..j];
    } else {
      assert j == 0;
      assert s[0..1] == [c];
      assert x[0..] == x;
    }
  }

  /** The three de-gluing rewrites of `clean_text`. */
  datatype Glue = LowerUpper | LetterDigit | DigitLetter

  /** The pair of characters the rewrite `g` separates: `([a-z])([A-Z])`, `([A-Za-z])(\d)`, `(\d)([A-Za-z])`. */
  predicate Glued(g: Glue, a: char, b: char) {
    match g
    case LowerUpper => IsLower(a) && IsUpper(b)
    case LetterDigit => IsLetter(a) && IsDigit(b)
    case DigitLetter => IsDigit(a) && IsLetter(b)
  }

  /** `re.sub(<g>, r"\1 \2", t)`: a space goes between the two characters of every match;
    * scanning resumes after the second character. */
  function SplitGlued(s: string, g: Glue): (r: string)
    ensures r == [] <==> s == []
    ensures r != [] ==> r[0] == s[0] && r[|r| - 1] == s[|s| - 1]
    ensures OnlyPlainSpaces(s) ==> OnlyPlainSpaces(r)
    ensures NoDoubleSpace(s) ==> NoDoubleSpace(r)
    decreases |s|
  {
    if s == [] then []
    else if |s| >= 2 && Glued(g, s[0], s[1]) then
      var rest := SplitGlued(s[2..], g);
      assert NoDoubleSpace(s) ==> NoDoubleSpace(s[2..]);
      [s[0], ' ', s[1]] + rest
    else
      var rest := SplitGlued(s[1..], g);
      assert NoDoubleSpace(s) ==> NoDoubleSpace(s[1..]);
      assert rest != [] ==> rest[0] == s[1];
      [s[0]] + rest
  }

  /** `clean_text`. */
  function CleanText(t: string): string {
    if t == [] then []
    else
      var s := CollapseWhitespace(JoinHyphenated(BlankOddSpaces(t)));
      Strip(SplitGlued(SplitGlued(SplitGlued(s, LowerUpper), LetterDigit), DigitLetter))
  }

  /** The output of `clean_text` is empty for empty input, its only whitespace is the plain
    * space, it never has two spaces in a row and it neither starts nor ends with a space. */
  lemma CleanTextNormalized(t: string)
    ensures Normalized(CleanText(t))
    ensures t == [] ==> CleanText(t) == []
  {
    if t != [] {
      var s := CollapseWhitespace(JoinHyphenated(BlankOddSpaces(t)));
      var u := SplitGlued(SplitGlued(SplitGlued(s, LowerUpper), LetterDigit), DigitLetter);
      StripKeepsSpacing(u);
    }
  }

  /** Collapsing whitespace leaves text with single plain spaces unchanged. */
  lemma {:induction false} CollapseWellSpaced(s: string)
    requires OnlyPlainSpaces(s) && NoDoubleSpace(s)
    ensures CollapseWhitespace(s) == s
    decreases |s|
  {
    if s != [] {
      if IsSpace(s[0]) {
        assert |s| > 1 ==> !IsSpace(s[1]);
        assert SkipSpaces(s, 0) == 1;
      }
      CollapseWellSpaced(s[1..]);
    }
  }

  /** A de-gluing rewrite leaves text without a glued pair unchanged. */
  lemma {:induction false} SplitGluedUnglued(s: string, g: Glue)
    requires forall k :: 0 <= k < |s| - 1 ==> !Glued(g, s[k], s[k + 1])
    ensures SplitGlued(s, g) == s
    decreases |s|
  {
    if s != [] {
      SplitGluedUnglued(s[1..], g);
    }
  }

  /** Text already normalised and without glued pairs: every step after the hyphen join leaves it alone. */
  predicate Settled(s: string) {
    && Normalized(s)
    && forall k :: 0 <= k < |s| - 1 ==>
      !Glued(LowerUpper, s[k], s[k + 1]) && !Glued(LetterDigit, s[k], s[k + 1]) && !Glued(DigitLetter, s[k], s[k + 1])
  }

  /** When the hyphen join is the only rewrite that changes the text, `clean_text` is that join. */
  lemma CleanTextSettled(t: string, j: string)
    requires t != [] && (forall k :: 0 <= k < |t| ==> !IsOddBlank(t[k]))
    requires JoinHyphenated(t) == j && Settled(j)
    ensures CleanText(t) == j
  {
    assert BlankOddSpaces(t) == t;
    CollapseWellSpaced(j);
    SplitGluedUnglued(j, LowerUpper);
    SplitGluedUnglued(j, LetterDigit);
    SplitGluedUnglued(j, DigitLetter);
  }

  /** `clean_text` is not idempotent: the hyphen join consumes the word character after the
    * break, so of two breaks one character apart only the first is joined, and cleaning the
    * result again joins the second. */
  lemma CleanTextNotIdempotent()
    ensures CleanText("a- b- c") == "ab- c"
    ensures CleanText(CleanText("a- b- c")) == "abc"
  {
    HyphenBreaks("a- b- c", "ab- c", "abc");
  }

  lemma HyphenBreaks(t: string, u: string, v: string)
    requires t == "a- b- c" && u == "ab- c" && v == "abc"
    ensures CleanText(t) == u && CleanText(u) == v
  {
    FirstBreakJoined(t, u);
    SecondBreakJoined(u, v);
    assert forall k :: 0 <= k < |t| ==> !IsOddBlank(t[k]);
    OnceJoinedSettled(u);
    TwiceJoinedSettled(v);
    CleanTextSettled(t, u);
    CleanTextSettled(u, v);
  }

  lemma OnceJoinedSettled(u: string)
    requires u == "ab- c"
    ensures Settled(u) && forall k :: 0 <= k < |u| ==> !IsOddBlank(u[k])
  {
    assert u[0] == 'a' && u[1] == 'b' && u[2] == '-' && u[3] == ' ' && u[4] == 'c' && |u| == 5;
    assert OnlyPlainSpaces(u) by {
      forall i | 0 <= i < |u| && i != 3 ensures !IsSpace(u[i]) { }
    }
  }

  lemma TwiceJoinedSettled(v: string)
    requires v == "abc"
    ensures Settled(v)
  {
    assert v[0] == 'a' && v[1] == 'b' && v[2] == 'c' && |v| == 3;
    assert OnlyPlainSpaces(v) by {
      forall i | 0 <= i < |v| ensures !IsSpace(v[i]) { }
    }
  }

  /** In `"a- b- c"` the first break is joined, and the `b` it consumed cannot start the second. */
  lemma FirstBreakJoined(t: string, u: string)
    requires t == "a- b- c" && u == "ab- c"
    ensures JoinHyphenated(t) == u
  {
    var rest := t[4..];
    assert rest == "- c" && rest[1..] == " c" && rest[2..] == "c";
    assert JoinHyphenated(rest[1..]) == rest[1..];
    assert IsWordChar(t[0]) && t[1] == '-' && IsSpace(t[2]) && !IsSpace(t[3]);
    assert SkipSpaces(t, 2) == 3;
    assert IsWordChar(t[3]);
  }

  /** In `"ab- c"` the remaining break is joined. */
  lemma SecondBreakJoined(u: string, v: string)
    requires u == "ab- c" && v == "abc"
    ensures JoinHyphenated(u) == v
  {
    var w := u[1..];
    assert w == "b- c";
    assert IsWordChar(w[0]) && w[1] == '-' && IsSpace(w[2]) && !IsSpace(w[3]);
    assert SkipSpaces(w, 2) == 3;
    assert IsWordChar(w[3]);
    assert w[4..] == [];
    assert JoinHyphenated(w) == "bc";
  }

  // ---------------------------------------------------------------------------
  // Word-bounded literal substitution, `re.sub(r"\b(<alt>|<alt>|...)\b", rep, s)`
  // ---------------------------------------------------------------------------

  /** The lower-case letters of `s`, in order: `re.sub(r"[^A-Za-z]", "", s).lower()`. */
  function LettersLower(s: string): (r: string)
    ensures |r| <= |s|
    ensures forall k :: 0 <= k < |r| ==> IsLower(r[k])
  {
    if s == [] then []
    else (if IsLetter(s[0]) then [ToLower(s[0])] else []) + LettersLower(s[1..])
  }

  lemma {:induction false} LettersLowerAppend(a: string, b: string)
    ensures LettersLower(a + b) == LettersLower(a) + LettersLower(b)
    decreases |a|
  {
    if a == [] {
      assert a + b == b;
    } else {
      assert (a + b)[0] == a[0];
      assert (a + b)[1..] == a[1..] + b;
      LettersLowerAppend(a[1..], b);
    }
  }

  /** Every character of `s` lower-cased. */
  function LowerStr(s: string): (r: string)
    ensures |r| == |s|
    ensures forall k :: 0 <= k < |s| ==> r[k] == ToLower(s[k])
  {
    seq(|s|, k requires 0 <= k < |s| => ToLower(s[k]))
  }

  predicate AllLetters(s: string) {
    forall k :: 0 <= k < |s| ==> IsLetter(s[k])
  }

  lemma {:induction false} LettersLowerOfLetters(w: string)
    requires AllLetters(w)
    ensures LettersLower(w) == LowerStr(w)
    decreases |w|
  {
    if w != [] {
      LettersLowerOfLetters(w[1..]);
      assert LowerStr(w) == [ToLower(w[0])] + LowerStr(w[1..]);
    }
  }

  /** Character equality, ASCII case-insensitive when `ignoreCase` holds. */
  predicate SameChar(a: char, b: char, ignoreCase: bool) {
    if ignoreCase then ToLower(a) == ToLower(b) else a == b
  }

  /** The literal `pat` occurs in `s` at `i`. */
  predicate MatchesAt(s: string, i: nat, pat: string, ignoreCase: bool) {
    i + |pat| <= |s| && forall k :: 0 <= k < |pat| ==> SameChar(s[i + k], pat[k], ignoreCase)
  }

  /** A word character stands just before index `i`; then `\b` cannot hold in front of a word at `i`. */
  predicate WordBefore(s: string, i: nat)
    requires i <= |s|
  {
    i > 0 && IsWordChar(s[i - 1])
  }

  /** A word character stands at index `j`; then `\b` cannot hold after a word ending at `j`. */
  predicate WordAfter(s: string, j: nat) {
    j < |s| && IsWordChar(s[j])
  }

  /** The alternative tried first (in order, from `from`) that matches at `i` and is followed by
    * a word boundary; `|alts|` when there is none. */
  function FirstAlt(s: string, i: nat, alts: seq<string>, ignoreCase: bool, from: nat): (k: nat)
    requires from <= |alts|
    ensures from <= k <= |alts|
    ensures k < |alts| ==> MatchesAt(s, i, alts[k], ignoreCase) && !WordAfter(s, i + |alts[k]|)
    ensures forall j :: from <= j < k ==> !(MatchesAt(s, i, alts[j], ignoreCase) && !WordAfter(s, i + |alts[j]|))
    decreases |alts| - from
  {
    if from == |alts| then from
    else if MatchesAt(s, i, alts[from], ignoreCase) && !WordAfter(s, i + |alts[from]|) then from
    else FirstAlt(s, i, alts, ignoreCase, from + 1)
  }

  /** What `re.sub(r"\b(alt_0|alt_1|...)\b", rep, ...)` does at `i`, for alternatives that begin
    * and end with a word character: the text it emits there and the index where scanning
    * resumes. The first alternative that matches at `i` between word boundaries is replaced by
    * `rep`; otherwise `s[i]` is copied. */
  function ReplaceAt(s: string, alts: seq<string>, rep: string, ignoreCase: bool, i: nat): (r: (string, nat))
    requires i < |s|
    requires forall j :: 0 <= j < |alts| ==> alts[j] != []
    ensures i < r.1 <= |s|
  {
    var k := if WordBefore(s, i) then |alts| else FirstAlt(s, i, alts, ignoreCase, 0);
    if k < |alts| then (rep, i + |alts[k]|) else ([s[i]], i + 1)
  }

  /** The substitution applied to `s[i..]`, scanning left to right. */
  function ReplaceWords(s: string, alts: seq<string>, rep: string, ignoreCase: bool, i: nat): string
    requires i <= |s|
    requires forall j :: 0 <= j < |alts| ==> alts[j] != []
    decreases |s| - i
  {
    if i == |s| then []
    else
      var (piece, next) := ReplaceAt(s, alts, rep, ignoreCase, i);
      piece + ReplaceWords(s, alts, rep, ignoreCase, next)
  }

  /** The alternatives are letters only and `rep` has the same letters, ignoring case. */
  predicate SameLettersAs(alts: seq<string>, rep: string) {
    forall j :: 0 <= j < |alts| ==> alts[j] != [] && AllLetters(alts[j]) && LettersLower(rep) == LowerStr(alts[j])
  }

  lemma {:induction false} MatchedLetters(s: string, i: nat, alt: string)
    requires AllLetters(alt) && MatchesAt(s, i, alt, true)
    ensures LettersLower(s[i..i + |alt|]) == LowerStr(alt)
  {
    var chunk := s[i..i + |alt|];
    forall k | 0 <= k < |chunk| ensures IsLetter(chunk[k]) {
      assert SameChar(s[i + k], alt[k], true);
    }
    LettersLowerOfLetters(chunk);
    forall k | 0 <= k < |chunk| ensures LowerStr(chunk)[k] == LowerStr(alt)[k] {
      assert SameChar(s[i + k], alt[k], true);
    }
  }

  /** Two texts with the same letters, each followed by texts with the same letters. */
  lemma LettersLowerConcat(x: string, xs: string, y: string, ys: string)
    requires LettersLower(x) == LettersLower(y) && LettersLower(xs) == LettersLower(ys)
    ensures LettersLower(x + xs) == LettersLower(y + ys)
  {
    LettersLowerAppend(x, xs);
    LettersLowerAppend(y, ys);
  }

  /** A case-insensitive substitution whose replacement has the letters of what it replaces
    * leaves the lower-cased letters of the text unchanged. */
  lemma {:induction false} ReplaceWordsKeepsLetters(s: string, alts: seq<string>, rep: string, i: nat)
    requires i <= |s|
    requires SameLettersAs(alts, rep)
    ensures LettersLower(ReplaceWords(s, alts, rep, true, i)) == LettersLower(s[i..])
    decreases |s| - i
  {
    if i < |s| {
      var (piece, next) := ReplaceAt(s, alts, rep, true, i);
      ReplaceWordsKeepsLetters(s, alts, rep, next);
      PieceLetters(s, alts, rep, i);
      JoinLetters(s, i, next, piece, ReplaceWords(s, alts, rep, true, next));
    }
  }

  /** The piece emitted at `i` has the letters of the text it stands for. */
  lemma PieceLetters(s: string, alts: seq<string>, rep: string, i: nat)
    requires i < |s| && SameLettersAs(alts, rep)
    ensures var (piece, next) := ReplaceAt(s, alts, rep, true, i);
      LettersLower(piece) == LettersLower(s[i..next])
  {
    var k := if WordBefore(s, i) then |alts| else FirstAlt(s, i, alts, true, 0);
    if k < |alts| {
      MatchedLetters(s, i, alts[k]);
    } else {
      assert s[i..i + 1] == [s[i]];
    }
  }

  lemma JoinLetters(s: string, i: nat, next: nat, piece: string, tail: string)
    requires i <= next <= |s|
    requires LettersLower(piece) == LettersLower(s[i..next]) && LettersLower(tail) == LettersLower(s[next..])
    ensures LettersLower(piece + tail) == LettersLower(s[i..])
  {
    assert s[i..] == s[i..next] + s[next..];
    LettersLowerConcat(piece, tail, s[i..next], s[next..]);
  }

  /** A replacement that can stand for a letters-only word in normalised text. */
  predicate SafeReplacement(alts: seq<string>, rep: string) {
    && Normalized(rep) && rep != [] && IsLetter(rep[0]) && IsLetter(rep[|rep| - 1])
    && forall j :: 0 <= j < |alts| ==> alts[j] != [] && AllLetters(alts[j])
  }

  /** `r`, produced from `s[i..]`, is well spaced, empty only when `s[i..]` is, and begins and
    * ends with a space exactly when `s[i..]` does. */
  predicate SpacedLike(r: string, s: string, i: nat) {
    && OnlyPlainSpaces(r) && NoDoubleSpace(r)
    && (r == [] <==> i == |s|)
    && (i < |s| ==> r != [] && (r[0] == ' ' <==> s[i] == ' ') && (r[|r| - 1] == ' ' <==> s[|s| - 1] == ' '))
  }

  /** `r`, emitted for `s[i..next]`, is well spaced, non-empty, and begins and ends with a space
    * exactly when `s[i..next]` does. */
  predicate PieceLike(r: string, s: string, i: nat, next: nat)
    requires i < next <= |s|
  {
    && OnlyPlainSpaces(r) && NoDoubleSpace(r) && r != []
    && (r[0] == ' ' <==> s[i] == ' ') && (r[|r| - 1] == ' ' <==> s[next - 1] == ' ')
  }

  lemma {:induction false} ReplaceWordsKeepsSpacing(s: string, alts: seq<string>, rep: string, ic: bool, i: nat)
    requires i <= |s|
    requires OnlyPlainSpaces(s) && NoDoubleSpace(s)
    requires SafeReplacement(alts, rep)
    ensures SpacedLike(ReplaceWords(s, alts, rep, ic, i), s, i)
    decreases |s| - i
  {
    if i < |s| {
      var (piece, next) := ReplaceAt(s, alts, rep, ic, i);
      ReplaceWordsKeepsSpacing(s, alts, rep, ic, next);
      PieceSpacing(s, alts, rep, ic, i);
      JoinSpacing(s, i, next, piece, ReplaceWords(s, alts, rep, ic, next));
    }
  }

  /** The piece emitted at `i` is spaced like the text it stands for: a replaced word is all
    * letters at both ends, and so is `rep`. */
  lemma PieceSpacing(s: string, alts: seq<string>, rep: string, ic: bool, i: nat)
    requires i < |s| && OnlyPlainSpaces(s) && SafeReplacement(alts, rep)
    ensures var (piece, next) := ReplaceAt(s, alts, rep, ic, i);
      PieceLike(piece, s, i, next)
  {
    var k := if WordBefore(s, i) then |alts| else FirstAlt(s, i, alts, ic, 0);
    if k < |alts| {
      var n := |alts[k]|;
      assert SameChar(s[i], alts[k][0], ic);
      assert SameChar(s[i + n - 1], alts[k][n - 1], ic);
    }
  }

  lemma JoinSpacing(s: string, i: nat, next: nat, piece: string, rest: string)
    requires i < next <= |s| && NoDoubleSpace(s)
    requires PieceLike(piece, s, i, next) && SpacedLike(rest, s, next)
    ensures SpacedLike(piece + rest, s, i)
  {
    assert next < |s| ==> !(s[next - 1] == ' ' && s[next] == ' ');
    ConcatSpacing(piece, rest);
  }

  /** Two well-spaced texts stay well spaced side by side unless a space ends the first and
    * starts the second. */
  lemma ConcatSpacing(x: string, y: string)
    requires OnlyPlainSpaces(x) && NoDoubleSpace(x) && OnlyPlainSpaces(y) && NoDoubleSpace(y)
    requires x != [] && y != [] ==> !(x[|x| - 1] == ' ' && y[0] == ' ')
    ensures OnlyPlainSpaces(x + y) && NoDoubleSpace(x + y)
    ensures x != [] ==> (x + y)[0] == x[0]
    ensures y != [] ==> (x + y)[|x + y| - 1] == y[|y| - 1]
    ensures y == [] ==> x + y == x
  {
    var r := x + y;
    forall j | 0 <= j < |r| ensures IsSpace(r[j]) ==> r[j] == ' ' {
      if j < |x| { assert r[j] == x[j]; } else { assert r[j] == y[j - |x|]; }
    }
    forall j | 0 <= j < |r| - 1 ensures !(r[j] == ' ' && r[j + 1] == ' ') {
      if j < |x| - 1 { assert r[j] == x[j] && r[j + 1] == x[j + 1]; }
      else if j >= |x| { assert r[j] == y[j - |x|] && r[j + 1] == y[j + 1 - |x|]; }
    }
  }

  // ---------------------------------------------------------------------------
  // fix_glued_domain_terms (parse_factsheet.py:63-80)
  // ---------------------------------------------------------------------------

  /** One entry of the fixed table, given by the words of its replacement. The entry's pattern is
    * those words run together in lower case between `\b` anchors, matched ignoring case; its
    * replacement is the words joined by single spaces. */
  datatype GluedFix = GluedFix(words: seq<string>) {
    function Pattern(): string { LowerStr(Concat(words)) }
    function Replacement(): string { JoinWith(words, " ") }
  }

  function Concat(ws: seq<string>): string {
    if ws == [] then [] else ws[0] + Concat(ws[1..])
  }

  /** The table, in the order the substitutions are applied:
    * openended, endedequity, equityscheme, schemeinvesting, investingin, inmaximum,
    * multicapstocks, mutualfundinvestmentsaresubjecttomarketrisks,
    * readallschemerelateddocumentscarefully. */
  const GLUED_FIXES: seq<GluedFix> := [
    GluedFix(["open", "ended"]),
    GluedFix(["ended", "equity"]),
    GluedFix(["equity", "scheme"]),
    GluedFix(["scheme", "investing"]),
    GluedFix(["investing", "in"]),
    GluedFix(["in", "maximum"]),
    GluedFix(["multicap", "stocks"]),
    GluedFix(["Mutual", "Fund", "investments", "are", "subject", "to", "market", "risks"]),
    GluedFix(["read", "all", "scheme", "related", "documents", "carefully"])
  ]

  /** Non-empty words made of letters only. */
  predicate LetterWords(ws: seq<string>) {
    ws != [] && forall j :: 0 <= j < |ws| ==> ws[j] != [] && AllLetters(ws[j])
  }

  lemma GluedFixesAreLetterWords()
    ensures forall j :: 0 <= j < |GLUED_FIXES| ==> LetterWords(GLUED_FIXES[j].words)
  {
    TwoWordFixesAreLetterWords();
    DisclaimerFixIsLetterWords();
    ReadFixIsLetterWords();
  }

  lemma TwoWordFixesAreLetterWords()
    ensures forall j :: 0 <= j < 7 ==> LetterWords(GLUED_FIXES[j].words)
  {
    assert AllLetters("open") && AllLetters("ended") && AllLetters("equity") && AllLetters("scheme");
    assert AllLetters("investing") && AllLetters("in") && AllLetters("maximum");
    assert AllLetters("multicap") && AllLetters("stocks");
  }

  lemma DisclaimerFixIsLetterWords()
    ensures LetterWords(GLUED_FIXES[7].words)
  {
    assert GLUED_FIXES[7].words == ["Mutual", "Fund", "investments", "are", "subject", "to", "market", "risks"];
    assert AllLetters("Mutual") && AllLetters("Fund") && AllLetters("investments") && AllLetters("are");
    assert AllLetters("subject") && AllLetters("to") && AllLetters("market") && AllLetters("risks");
  }

  lemma ReadFixIsLetterWords()
    ensures LetterWords(GLUED_FIXES[8].words)
  {
    assert GLUED_FIXES[8].words == ["read", "all", "scheme", "related", "documents", "carefully"];
    assert AllLetters("read") && AllLetters("all") && AllLetters("scheme");
    assert AllLetters("related") && AllLetters("documents") && AllLetters("carefully");
  }

  lemma {:induction false} ConcatLetters(ws: seq<string>)
    requires forall j :: 0 <= j < |ws| ==> ws[j] != [] && AllLetters(ws[j])
    ensures AllLetters(Concat(ws))
    ensures ws != [] ==> Concat(ws) != []
  {
    if ws != [] {
      ConcatLetters(ws[1..]);
      var c := Concat(ws);
      forall k | 0 <= k < |c| ensures IsLetter(c[k]) {
        if k >= |ws[0]| { assert c[k] == Concat(ws[1..])[k - |ws[0]|]; }
      }
    }
  }

  /** Joining letter words with single spaces gives the letters of the words run together. */
  lemma {:induction false} JoinedWordsLetters(ws: seq<string>)
    requires LetterWords(ws)
    ensures LettersLower(JoinWith(ws, " ")) == LowerStr(Concat(ws))
  {
    var w := ws[0];
    if |ws| == 1 {
      LettersLowerOfLetters(w);
      assert Concat(ws[1..]) == [];
      assert Concat(ws) == w + [];
    } else {
      var tail := ws[1..];
      JoinedWordsLetters(tail);
      assert JoinWith(ws, " ") == w + " " + JoinWith(tail, " ");
      assert Concat(ws) == w + Concat(tail);
      SpacedLetters(w, JoinWith(tail, " "), Concat(tail));
    }
  }

  /** The step of `JoinedWordsLetters`: a letter word, a space, then text with known letters. */
  lemma SpacedLetters(w: string, joined: string, concat: string)
    requires AllLetters(w) && LettersLower(joined) == LowerStr(concat)
    ensures LettersLower(w + " " + joined) == LowerStr(w + concat)
  {
    LettersLowerOfLetters(w);
    LettersLowerAppend(w + " ", joined);
    LettersLowerAppend(w, " ");
    assert LettersLower(" ") == [] by { assert " "[1..] == []; }
    assert LettersLower(w + " ") == LowerStr(w) by { AppendEmpty(LowerStr(w)); }
    LowerStrAppend(w, concat);
  }

  lemma AppendEmpty<T>(s: seq<T>)
    ensures s + [] == s
  {
  }

  lemma LowerStrAppend(a: string, b: string)
    ensures LowerStr(a + b) == LowerStr(a) + LowerStr(b)
  {
    var l := LowerStr(a + b);
    var r := LowerStr(a) + LowerStr(b);
    forall k | 0 <= k < |l| ensures l[k] == r[k] {
      if k < |a| { assert (a + b)[k] == a[k]; } else { assert (a + b)[k] == b[k - |a|]; }
    }
  }

  /** Joining letter words with single spaces gives normalised text that starts and ends with a letter. */
  lemma {:induction false} JoinedWordsShape(ws: seq<string>)
    requires LetterWords(ws)
    ensures var r := JoinWith(ws, " ");
      Normalized(r) && r != [] && IsLetter(r[0]) && IsLetter(r[|r| - 1]) && AllLettersOrSpaces(r)
  {
    if |ws| > 1 {
      JoinedWordsShape(ws[1..]);
      var t := JoinWith(ws[1..], " ");
      var r := ws[0] + " " + t;
      assert r[0] == ws[0][0];
      assert r[|r| - 1] == t[|t| - 1];
      forall j | 0 <= j < |r| - 1 ensures !(r[j] == ' ' && r[j + 1] == ' ') {
        if j < |ws[0]| - 1 { assert r[j] == ws[0][j]; }
        else if j == |ws[0]| - 1 { assert r[j] == ws[0][j]; }
        else if j == |ws[0]| { assert r[j + 1] == t[0]; }
        else { assert r[j] == t[j - |ws[0]| - 1] && r[j + 1] == t[j - |ws[0]|]; }
      }
      forall j | 0 <= j < |r| ensures IsLetter(r[j]) || r[j] == ' ' {
        if j < |ws[0]| { assert r[j] == ws[0][j]; }
        else if j > |ws[0]| { assert r[j] == t[j - |ws[0]| - 1]; }
      }
    }
  }

  predicate AllLettersOrSpaces(s: string) {
    forall k :: 0 <= k < |s| ==> IsLetter(s[k]) || s[k] == ' '
  }

  /** Applies the table entries `fixes` in order. */
  function ApplyFixes(s: string, fixes: seq<GluedFix>): string
    requires forall j :: 0 <= j < |fixes| ==> LetterWords(fixes[j].words)
    decreases |fixes|
  {
    if fixes == [] then s
    else
      assert LetterWords(fixes[0].words);
      ApplyFixes(ApplyFix(s, fixes[0]), fixes[1..])
  }

  /** One entry: `re.sub(pattern, replacement, s, flags=re.IGNORECASE)`. */
  function ApplyFix(s: string, f: GluedFix): string
    requires LetterWords(f.words)
  {
    ConcatLetters(f.words);
    ReplaceWords(s, [f.Pattern()], f.Replacement(), true, 0)
  }

  /** `fix_glued_domain_terms`. */
  function FixGluedDomainTerms(text: string): string {
    if text == [] then text
    else
      GluedFixesAreLetterWords();
      ApplyFixes(text, GLUED_FIXES)
  }

  lemma {:induction false} ApplyFixesKeeps(s: string, fixes: seq<GluedFix>)
    requires forall j :: 0 <= j < |fixes| ==> LetterWords(fixes[j].words)
    ensures LettersLower(ApplyFixes(s, fixes)) == LettersLower(s)
    ensures Normalized(s) ==> Normalized(ApplyFixes(s, fixes))
    decreases |fixes|
  {
    if fixes != [] {
      var f := fixes[0];
      assert LetterWords(f.words);
      FixStepKeeps(s, f);
      ApplyFixesKeeps(ApplyFix(s, f), fixes[1..]);
    }
  }

  /** One table entry keeps the lower-cased letters and the shape of the text. */
  lemma FixStepKeeps(s: string, f: GluedFix)
    requires LetterWords(f.words)
    ensures LettersLower(ApplyFix(s, f)) == LettersLower(s)
    ensures Normalized(s) ==> Normalized(ApplyFix(s, f))
  {
    ConcatLetters(f.words);
    var pat := f.Pattern();
    var rep := f.Replacement();
    assert AllLetters(pat) by {
      forall k | 0 <= k < |pat| ensures IsLetter(pat[k]) { assert IsLetter(Concat(f.words)[k]); }
    }
    JoinedWordsLetters(f.words);
    JoinedWordsShape(f.words);
    assert LowerStr(pat) == pat;
    ReplaceWordsKeepsLetters(s, [pat], rep, 0);
    assert s[0..] == s;
    if Normalized(s) {
      ReplaceWordsNormalized(s, [pat], rep, true);
    }
  }

  /** A safe substitution keeps normalised text normalised. */
  lemma ReplaceWordsNormalized(s: string, alts: seq<string>, rep: string, ic: bool)
    requires Normalized(s) && SafeReplacement(alts, rep)
    ensures Normalized(ReplaceWords(s, alts, rep, ic, 0))
  {
    ReplaceWordsKeepsSpacing(s, alts, rep, ic, 0);
  }

  /** `fix_glued_domain_terms` never changes the lower-cased letters of the text (each
    * replacement spells its pattern with spaces and capitals added), and it keeps text in the
    * shape `clean_text` produces. */
  lemma FixGluedKeepsLettersAndShape(s: string)
    ensures LettersLower(FixGluedDomainTerms(s)) == LettersLower(s)
    ensures Normalized(s) ==> Normalized(FixGluedDomainTerms(s))
  {
    if s != [] {
      GluedFixesAreLetterWords();
      ApplyFixesKeeps(s, GLUED_FIXES);
    }
  }

  /** `fix_glued_domain_terms(clean_text(text))`, the text the parser works with: it keeps the
    * shape `clean_text` produces. */
  function Cleaned(text: string): (txt: string)
    ensures Normalized(txt)
  {
    CleanTextNormalized(text);
    FixGluedKeepsLettersAndShape(CleanText(text));
    FixGluedDomainTerms(CleanText(text))
  }

  // ---------------------------------------------------------------------------
  // is_noise (parse_factsheet.py:82-97)
  // ---------------------------------------------------------------------------

  /** The two boilerplate phrases, as letters only in lower case. */
  const NOISE_PHRASES: seq<string> := [
    "mutualfundinvestmentsaresubjecttomarketrisks",
    "readallschemerelateddocumentscarefully"
  ]

  predicate OccursAt(hay: string, needle: string, p: nat) {
    p + |needle| <= |hay| && hay[p..p + |needle|] == needle
  }

  /** Python's `needle in hay` on strings. */
  predicate Contains(hay: string, needle: string) {
    exists p: nat | p <= |hay| :: OccursAt(hay, needle, p)
  }

  /** First index at or after `i` that does not hold an ASCII digit. */
  function SkipDigits(s: string, i: nat): (j: nat)
    requires i <= |s|
    ensures i <= j <= |s|
    ensures forall k :: i <= k < j ==> IsDigit(s[k])
    ensures j < |s| ==> !IsDigit(s[j])
    decreases |s| - i
  {
    if i < |s| && IsDigit(s[i]) then SkipDigits(s, i + 1) else i
  }

  /** The letters of the text, lower-cased, contain one of the boilerplate phrases. */
  predicate HasBoilerplate(text: string) {
    exists j :: 0 <= j < |NOISE_PHRASES| && Contains(LettersLower(text), NOISE_PHRASES[j])
  }

  /** `re.search(r"^\s*Page\s*\|?\s*\d+\s*$", text, re.IGNORECASE)`: the whole text is a page
    * number, optionally written with a pipe. (Whitespace, the pipe and digits are disjoint
    * classes, so the greedy reading below is the only one the engine can find.) */
  predicate IsPageNumberLine(s: string) {
    var i0 := SkipSpaces(s, 0);
    MatchesAt(s, i0, "page", true) &&
    var i1 := SkipSpaces(s, i0 + 4);
    var i2 := if i1 < |s| && s[i1] == '|' then i1 + 1 else i1;
    var i3 := SkipSpaces(s, i2);
    var i4 := SkipDigits(s, i3);
    i3 < i4 && SkipSpaces(s, i4) == |s|
  }

  /** "Page" in any case at `p`, then optional whitespace, then a digit. */
  predicate PageNumberAt(s: string, p: nat) {
    MatchesAt(s, p, "page", true) && SkipSpaces(s, p + 4) < |s| && IsDigit(s[SkipSpaces(s, p + 4)])
  }

  /** `re.search(r"Page\s*\d+", text, re.IGNORECASE)`. */
  predicate MentionsPageNumber(s: string) {
    exists p: nat | p <= |s| :: PageNumberAt(s, p)
  }

  /** `is_noise`: boilerplate or a page-number line. Empty text is not noise. */
  predicate IsNoise(text: string) {
    text != [] && (HasBoilerplate(text) || IsPageNumberLine(text) || MentionsPageNumber(text))
  }

  lemma {:induction false} SkipSpacesInContext(a: string, s: string, b: string, i: nat)
    requires i <= |s| && SkipSpaces(s, i) < |s|
    ensures SkipSpaces(a + s + b, |a| + i) == |a| + SkipSpaces(s, i)
    decreases |s| - i
  {
    var t := a + s + b;
    assert t[|a| + i] == s[i];
    if IsSpace(s[i]) {
      SkipSpacesInContext(a, s, b, i + 1);
    }
  }

  lemma MatchesAtInContext(a: string, s: string, b: string, p: nat, pat: string, ic: bool)
    requires MatchesAt(s, p, pat, ic)
    ensures MatchesAt(a + s + b, |a| + p, pat, ic)
  {
    var t := a + s + b;
    forall k | 0 <= k < |pat| ensures SameChar(t[|a| + p + k], pat[k], ic) {
      assert t[|a| + p + k] == s[p + k];
    }
  }

  lemma BoilerplateInContext(a: string, s: string, b: string)
    requires HasBoilerplate(s)
    ensures HasBoilerplate(a + s + b)
  {
    var j :| 0 <= j < |NOISE_PHRASES| && Contains(LettersLower(s), NOISE_PHRASES[j]);
    LettersLowerAppend(a + s, b);
    LettersLowerAppend(a, s);
    ContainsInContext(LettersLower(a), LettersLower(s), LettersLower(b), NOISE_PHRASES[j]);
  }

  /** A text that contains `needle` still does with text added on either side. */
  lemma ContainsInContext(a: string, s: string, b: string, needle: string)
    requires Contains(s, needle)
    ensures Contains(a + s + b, needle)
  {
    var p: nat :| p <= |s| && OccursAt(s, needle, p);
    var t := a + s + b;
    assert t[|a| + p..|a| + p + |needle|] == s[p..p + |needle|];
    assert OccursAt(t, needle, |a| + p);
  }

  lemma PageNumberInContext(a: string, s: string, b: string)
    requires MentionsPageNumber(s)
    ensures MentionsPageNumber(a + s + b)
  {
    var t := a + s + b;
    var p: nat :| p <= |s| && PageNumberAt(s, p);
    MatchesAtInContext(a, s, b, p, "page", true);
    SkipSpacesInContext(a, s, b, p + 4);
    assert t[|a| + SkipSpaces(s, p + 4)] == s[SkipSpaces(s, p + 4)];
    assert PageNumberAt(t, |a| + p);
  }

  /** Boilerplate and "Page <digits>" are noise whatever text surrounds them. */
  lemma NoiseInContext(a: string, s: string, b: string)
    requires HasBoilerplate(s) || MentionsPageNumber(s)
    ensures IsNoise(a + s + b)
  {
    if HasBoilerplate(s) {
      BoilerplateInContext(a, s, b);
    } else {
      PageNumberInContext(a, s, b);
    }
  }

  /** Fixing glued terms never creates or removes boilerplate. */
  lemma FixGluedKeepsBoilerplate(s: string)
    ensures HasBoilerplate(FixGluedDomainTerms(s)) <==> HasBoilerplate(s)
  {
    FixGluedKeepsLettersAndShape(s);
  }
}
