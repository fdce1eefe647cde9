/**
 * The page assembler of `group_page_content` (parse_factsheet.py:132-206): blocks are taken in
 * reading order, the labelled spans of each block are grouped into runs of one label, every run
 * is pushed as a heading or as paragraphs while the current section and sub-section are tracked,
 * and one chart placeholder is appended per image of the page.
 */
module Assembler {
  import opened Wrappers
  import opened CharClass
  import opened Text
  import opened Content
  import opened Headings
  import opened StableSort

  /** Body text longer than this is split into sentences. */
  const PARAGRAPH_LIMIT: nat := 600

  const CHART_TEXT: string := "Chart/graph detected"
  const CHART_NOTE: string := "placeholder for chart"

  // ---------------------------------------------------------------------------
  // Sentence split of long paragraphs, `re.split(r'(?<=[.!?])\s+(?=[A-Z])', txt)`
  // ---------------------------------------------------------------------------

  predicate IsSentenceEnd(c: char) {
    c == '.' || c == '!' || c == '?'
  }

  /** The separator matches at `i`: sentence punctuation just before, whitespace from `i` on,
    * and an upper-case letter right after that whitespace. (The greedy `\s+` can only succeed
    * by taking the whole run of whitespace, because a shorter run is followed by whitespace.) */
  predicate BoundaryAt(s: string, i: nat) {
    && 0 < i < |s| && IsSentenceEnd(s[i - 1]) && IsSpace(s[i])
    && SkipSpaces(s, i) < |s| && IsUpper(s[SkipSpaces(s, i)])
  }

  /** The pieces of `s` from `start` on, scanning for a separator from `i`. */
  function SplitFrom(s: string, start: nat, i: nat): (ps: seq<string>)
    requires start <= i <= |s|
    ensures ps != []
    decreases |s| - i
  {
    if i == |s| then [s[start..]]
    else if BoundaryAt(s, i) then [s[start..i]] + SplitFrom(s, SkipSpaces(s, i), SkipSpaces(s, i))
    else SplitFrom(s, start, i + 1)
  }

  /** `re.split` of `s` at every sentence boundary. */
  function SplitSentences(s: string): seq<string> {
    SplitFrom(s, 0, 0)
  }

  /** The first piece of `SplitFrom(s, start, i)` is `s[start..e]`, where `e` is the first
    * separator at or after `i` (or the end of the text); the other pieces are split from the
    * first non-whitespace character after that separator. */
  lemma {:induction false} FirstPiece(s: string, start: nat, i: nat) returns (e: nat)
    requires start <= i <= |s|
    ensures i <= e <= |s| && SplitFrom(s, start, i)[0] == s[start..e]
    ensures forall j :: i <= j < e ==> !BoundaryAt(s, j)
    ensures e == |s| ==> |SplitFrom(s, start, i)| == 1
    ensures e < |s| ==>
      BoundaryAt(s, e) && SplitFrom(s, start, i)[1..] == SplitFrom(s, SkipSpaces(s, e), SkipSpaces(s, e))
    decreases |s| - i
  {
    if i == |s| || BoundaryAt(s, i) {
      e := i;
    } else {
      e := FirstPiece(s, start, i + 1);
    }
  }

  /** The first index at or after `i` that holds no whitespace is the one named by its shape. */
  lemma SkipSpacesAt(s: string, i: nat, r: nat)
    requires i <= r < |s| && !IsSpace(s[r]) && forall k :: i <= k < r ==> IsSpace(s[k])
    ensures SkipSpaces(s, i) == r
  {
  }

  /** A separator inside a slice is a separator of the whole text. */
  lemma BoundaryOfSlice(s: string, a: nat, b: nat, j: nat)
    requires a <= b <= |s| && BoundaryAt(s[a..b], j)
    ensures BoundaryAt(s, a + j)
  {
    var p := s[a..b];
    var r := SkipSpaces(p, j);
    assert p[j - 1] == s[a + j - 1] && p[j] == s[a + j] && p[r] == s[a + r];
    forall k | a + j <= k < a + r ensures IsSpace(s[k]) {
      assert s[k] == p[k - a];
    }
    SkipSpacesAt(s, a + j, a + r);
  }

  /** Where the sentence split cuts: every piece but the last is non-empty and ends with
    * `.`, `!` or `?`, every piece but the first is non-empty and starts with an upper-case
    * letter, and no piece has a separator inside it, so no sentence boundary is missed. */
  lemma {:induction false} SplitCuts(s: string, start: nat)
    requires start <= |s| && (start == 0 || (start < |s| && !IsSpace(s[start])))
    ensures var ps := SplitFrom(s, start, start);
      && (forall k :: 0 <= k < |ps| - 1 ==> ps[k] != [] && IsSentenceEnd(ps[k][|ps[k]| - 1]))
      && (forall k :: 0 < k < |ps| ==> ps[k] != [] && IsUpper(ps[k][0]))
      && (forall k, j :: 0 <= k < |ps| && 0 < j < |ps[k]| ==> !BoundaryAt(ps[k], j))
    decreases |s| - start
  {
    var ps := SplitFrom(s, start, start);
    var e := FirstPiece(s, start, start);
    var first := s[start..e];
    forall j | 0 < j < |first| ensures !BoundaryAt(first, j) {
      if BoundaryAt(first, j) { BoundaryOfSlice(s, start, e, j); }
    }
    if e < |s| {
      var n := SkipSpaces(s, e);
      assert IsSpace(s[e]) && e < n < |s| && IsUpper(s[n]);
      assert !IsSpace(s[n]);
      SplitCuts(s, n);
      var rest := SplitFrom(s, n, n);
      var e2 := FirstPiece(s, n, n);
      assert rest[0] == s[n..e2] && n < e2;
      assert ps == [first] + rest;
      assert first != [] && first[|first| - 1] == s[e - 1];
      forall k | 0 <= k < |ps| - 1 ensures ps[k] != [] && IsSentenceEnd(ps[k][|ps[k]| - 1]) {
        if k > 0 { assert ps[k] == rest[k - 1]; }
      }
      forall k | 0 < k < |ps| ensures ps[k] != [] && IsUpper(ps[k][0]) {
        assert ps[k] == rest[k - 1];
      }
      forall k, j | 0 <= k < |ps| && 0 < j < |ps[k]| ensures !BoundaryAt(ps[k], j) {
        if k > 0 { assert ps[k] == rest[k - 1]; }
      }
    }
  }

  /** `[p.strip() for p in parts if p.strip()]`, in order. */
  function KeepParts(parts: seq<string>): (r: seq<string>)
    ensures |r| <= |parts|
  {
    if parts == [] then []
    else
      var p := Strip(parts[|parts| - 1]);
      KeepParts(parts[..|parts| - 1]) + (if p == [] then [] else [p])
  }

  lemma KeepPartsSnoc(parts: seq<string>, k: nat)
    requires k < |parts|
    ensures KeepParts(parts[..k + 1]) == KeepParts(parts[..k]) + (if Strip(parts[k]) == [] then [] else [Strip(parts[k])])
  {
    assert parts[..k + 1][..k] == parts[..k];
  }

  lemma KeptSnoc(parts: seq<string>, k: nat, kept: seq<string>)
    requires k < |parts| && kept == KeepParts(parts[..k])
    ensures Strip(parts[k]) == [] ==> kept == KeepParts(parts[..k + 1])
    ensures Strip(parts[k]) != [] ==> kept + [Strip(parts[k])] == KeepParts(parts[..k + 1])
  {
    KeepPartsSnoc(parts, k);
  }

  /** The paragraph texts a body run with cleaned text `txt` is pushed as. */
  function Paragraphs(txt: string): seq<string> {
    if |txt| <= PARAGRAPH_LIMIT then [txt] else KeepParts(SplitSentences(txt))
  }

  /** The kept parts are non-empty and have no surrounding whitespace. */
  lemma {:induction false} KeepPartsTrimmed(parts: seq<string>)
    ensures forall k :: 0 <= k < |KeepParts(parts)| ==> KeepParts(parts)[k] != [] && Trimmed(KeepParts(parts)[k])
  {
    if parts != [] {
      var init := parts[..|parts| - 1];
      KeepPartsTrimmed(init);
      var r := KeepParts(parts);
      var p := Strip(parts[|parts| - 1]);
      forall k | 0 <= k < |r| ensures r[k] != [] && Trimmed(r[k]) {
        if k < |KeepParts(init)| { assert r[k] == KeepParts(init)[k]; }
      }
    }
  }

  lemma {:induction false} KeepPartsOfTrimmed(parts: seq<string>)
    requires forall k :: 0 <= k < |parts| ==> parts[k] != [] && Trimmed(parts[k])
    ensures KeepParts(parts) == parts
  {
    if parts != [] {
      var init := parts[..|parts| - 1];
      KeepPartsOfTrimmed(init);
      assert parts == init + [parts[|parts| - 1]];
    }
  }

  lemma JoinCons(p: string, rest: seq<string>)
    requires rest != []
    ensures JoinWith([p] + rest, " ") == p + " " + JoinWith(rest, " ")
  {
    assert ([p] + rest)[1..] == rest;
  }

  /** In normalised text, a separator is exactly one space and the next piece starts after it. */
  lemma BoundaryInNormalized(s: string, i: nat)
    requires Normalized(s) && BoundaryAt(s, i)
    ensures SkipSpaces(s, i) == i + 1 && s[i] == ' '
  {
    assert s[i] == ' ';
    assert i + 1 < |s|;
    assert !(s[i] == ' ' && s[i + 1] == ' ');
  }

  /** Split pieces of normalised text are non-empty and trimmed, and joining them with single
    * spaces gives back the text they were cut from. */
  lemma {:induction false} SplitFromNormalized(s: string, start: nat, i: nat)
    requires Normalized(s) && start <= i <= |s| && start < |s| && !IsSpace(s[start])
    requires start == 0 || IsSpace(s[start - 1])
    ensures var ps := SplitFrom(s, start, i);
      && (forall k :: 0 <= k < |ps| ==> ps[k] != [] && Trimmed(ps[k]))
      && JoinWith(ps, " ") == s[start..]
    decreases |s| - i, 1
  {
    if i == |s| {
    } else if BoundaryAt(s, i) {
      SplitAtBoundary(s, start, i);
    } else {
      SplitFromNormalized(s, start, i + 1);
    }
  }

  /** The boundary case of `SplitFromNormalized`: the piece ends at the separator and the
    * rest is split from just after its one space. */
  lemma {:induction false} SplitAtBoundary(s: string, start: nat, i: nat)
    requires Normalized(s) && start <= i < |s| && !IsSpace(s[start]) && BoundaryAt(s, i)
    ensures var ps := SplitFrom(s, start, i);
      && (forall k :: 0 <= k < |ps| ==> ps[k] != [] && Trimmed(ps[k]))
      && JoinWith(ps, " ") == s[start..]
    decreases |s| - i, 0
  {
    BoundaryInNormalized(s, i);
    SplitFromNormalized(s, i + 1, i + 1);
    var rest := SplitFrom(s, i + 1, i + 1);
    assert SplitFrom(s, start, i) == [s[start..i]] + rest;
    BoundaryJoin(s, start, i, rest);
  }

  /** The piece before a one-space separator, followed by the pieces after it. */
  lemma BoundaryJoin(s: string, start: nat, i: nat, rest: seq<string>)
    requires start < i < |s| && !IsSpace(s[start]) && IsSentenceEnd(s[i - 1]) && s[i] == ' '
    requires rest != [] && forall k :: 0 <= k < |rest| ==> rest[k] != [] && Trimmed(rest[k])
    requires JoinWith(rest, " ") == s[i + 1..]
    ensures var ps := [s[start..i]] + rest;
      && (forall k :: 0 <= k < |ps| ==> ps[k] != [] && Trimmed(ps[k]))
      && JoinWith(ps, " ") == s[start..]
  {
    var ps := [s[start..i]] + rest;
    JoinCons(s[start..i], rest);
    assert s[start..] == s[start..i] + " " + s[i + 1..];
    forall k | 0 <= k < |ps| ensures ps[k] != [] && Trimmed(ps[k]) {
      if k > 0 { assert ps[k] == rest[k - 1]; }
    }
  }

  /** Paragraphs of a normalised run rejoin to its text: at most 600 characters give the text
    * itself, longer text gives its sentences as `SplitSentences` cuts them (see `SplitCuts`),
    * none of them dropped by the strip filter, each non-empty, trimmed and in order. */
  lemma ParagraphsRejoin(txt: string)
    requires Normalized(txt) && txt != []
    ensures |txt| <= PARAGRAPH_LIMIT ==> Paragraphs(txt) == [txt]
    ensures |txt| > PARAGRAPH_LIMIT ==> Paragraphs(txt) == SplitSentences(txt)
    ensures forall k :: 0 <= k < |Paragraphs(txt)| ==> Paragraphs(txt)[k] != [] && Trimmed(Paragraphs(txt)[k])
    ensures JoinWith(Paragraphs(txt), " ") == txt
  {
    if |txt| > PARAGRAPH_LIMIT {
      SplitFromNormalized(txt, 0, 0);
      KeepPartsOfTrimmed(SplitSentences(txt));
      assert txt[0..] == txt;
    }
  }

  // ---------------------------------------------------------------------------
  // push_text (parse_factsheet.py:142-166)
  // ---------------------------------------------------------------------------

  /** What the assembler of one page holds: the items so far, `current_section` and `current_sub`. */
  datatype AsmState = AsmState(items: seq<ContentItem>, section: Option<string>, subSection: Option<string>)

  const INIT: AsmState := AsmState([], None, None)


  function ParagraphFor(txt: string, section: Option<string>, sub: Option<string>, bbox: BBox): ContentItem {
    ContentItem(ParagraphItem, section, sub, Some(txt), None, Some(bbox), None)
  }

  /** One paragraph item per text, in order, all in the given section and sub-section. */
  function ParagraphItems(texts: seq<string>, section: Option<string>, sub: Option<string>, bbox: BBox): (r: seq<ContentItem>)
    ensures |r| == |texts|
  {
    if texts == [] then []
    else ParagraphItems(texts[..|texts| - 1], section, sub, bbox) + [ParagraphFor(texts[|texts| - 1], section, sub, bbox)]
  }

  lemma ParagraphItemsSnoc(texts: seq<string>, t: string, section: Option<string>, sub: Option<string>, bbox: BBox)
    ensures ParagraphItems(texts + [t], section, sub, bbox) == ParagraphItems(texts, section, sub, bbox) + [ParagraphFor(t, section, sub, bbox)]
  {
    assert (texts + [t])[..|texts|] == texts;
  }

  lemma ItemsSnoc(items0: seq<ContentItem>, items: seq<ContentItem>, kept: seq<string>, part: string, sec: Option<string>, sub: Option<string>, bbox: BBox)
    requires items == items0 + ParagraphItems(kept, sec, sub, bbox)
    ensures items + [ParagraphFor(part, sec, sub, bbox)] == items0 + ParagraphItems(kept + [part], sec, sub, bbox)
  {
    ParagraphItemsSnoc(kept, part, sec, sub, bbox);
  }

  /** `push_text(as_heading, text, bbox)`: the state after it. */
  function PushStep(st: AsmState, asHeading: bool, text: string, bbox: BBox): AsmState {
    PushCleaned(st, asHeading, Cleaned(text), bbox)
  }

  /** The rest of `push_text`, once the text is cleaned: empty or noise text adds nothing, a
    * heading is pushed as one item, body text as its paragraphs. */
  function PushCleaned(st: AsmState, asHeading: bool, txt: string, bbox: BBox): AsmState {
    if txt == [] || IsNoise(txt) then st
    else if asHeading then
      if st.section.None? then
        AsmState(st.items + [ContentItem(HeadingItem, Some(txt), None, Some(txt), None, Some(bbox), None)], Some(txt), st.subSection)
      else
        AsmState(st.items + [ContentItem(HeadingItem, st.section, Some(txt), Some(txt), None, Some(bbox), None)], st.section, Some(txt))
    else
      AsmState(st.items + ParagraphItems(Paragraphs(txt), st.section, st.subSection, bbox), st.section, st.subSection)
  }

  // ---------------------------------------------------------------------------
  // The section context an item list implies
  // ---------------------------------------------------------------------------

  /** The texts of the heading items, in order. */
  function HeadingTexts(items: seq<ContentItem>): seq<string> {
    if items == [] then []
    else
      var x := items[|items| - 1];
      HeadingTexts(items[..|items| - 1]) + (if x.kind == HeadingItem then [x.text.GetOr("")] else [])
  }

  /** The (section, sub-section) the headings of `items` establish: the first heading names the
    * section and, once there is a second heading, the latest one names the sub-section. */
  function ContextOf(items: seq<ContentItem>): (Option<string>, Option<string>) {
    var hs := HeadingTexts(items);
    (if hs == [] then None else Some(hs[0]), if |hs| < 2 then None else Some(hs[|hs| - 1]))
  }

  /** Item `k` carries the section and sub-section established by the items up to and including it. */
  predicate Carries(items: seq<ContentItem>, k: nat)
    requires k < |items|
  {
    (items[k].section, items[k].subSection) == ContextOf(items[..k + 1])
  }

  /** Every item carries its context, and the state's section and sub-section are those of all its items. */
  predicate WellSectioned(st: AsmState) {
    && (st.section, st.subSection) == ContextOf(st.items)
    && forall k :: 0 <= k < |st.items| ==> Carries(st.items, k)
  }

  lemma HeadingTextsSnoc(items: seq<ContentItem>, x: ContentItem)
    ensures HeadingTexts(items + [x]) == HeadingTexts(items) + (if x.kind == HeadingItem then [x.text.GetOr("")] else [])
  {
    assert (items + [x])[..|items|] == items;
  }

  lemma CarriesPrefix(items: seq<ContentItem>, x: ContentItem, k: nat)
    requires k < |items| && Carries(items, k)
    ensures Carries(items + [x], k)
  {
    assert (items + [x])[..k + 1] == items[..k + 1];
  }

  /** Appending an item that carries the resulting context keeps the state well sectioned. */
  lemma {:induction false} AppendCarried(st: AsmState, x: ContentItem, section: Option<string>, sub: Option<string>)
    requires WellSectioned(st)
    requires (section, sub) == ContextOf(st.items + [x]) && (x.section, x.subSection) == (section, sub)
    ensures WellSectioned(AsmState(st.items + [x], section, sub))
  {
    var items := st.items + [x];
    forall k | 0 <= k < |items| ensures Carries(items, k) {
      if k < |st.items| {
        CarriesPrefix(st.items, x, k);
      } else {
        assert items[..k + 1] == items;
      }
    }
  }

  /** Appending one paragraph item with the current context keeps the state well sectioned. */
  lemma AppendParagraph(st: AsmState, txt: string, bbox: BBox)
    requires WellSectioned(st)
    ensures WellSectioned(AsmState(st.items + [ParagraphFor(txt, st.section, st.subSection, bbox)], st.section, st.subSection))
  {
    var x := ParagraphFor(txt, st.section, st.subSection, bbox);
    HeadingTextsSnoc(st.items, x);
    AppendCarried(st, x, st.section, st.subSection);
  }

  lemma {:induction false} AppendParagraphs(st: AsmState, texts: seq<string>, bbox: BBox)
    requires WellSectioned(st)
    ensures WellSectioned(AsmState(st.items + ParagraphItems(texts, st.section, st.subSection, bbox), st.section, st.subSection))
    decreases |texts|
  {
    if texts == [] {
      assert st.items + ParagraphItems(texts, st.section, st.subSection, bbox) == st.items;
    } else {
      var init := texts[..|texts| - 1];
      AppendParagraphs(st, init, bbox);
      var st1 := AsmState(st.items + ParagraphItems(init, st.section, st.subSection, bbox), st.section, st.subSection);
      AppendParagraph(st1, texts[|texts| - 1], bbox);
      assert st.items + ParagraphItems(texts, st.section, st.subSection, bbox)
        == st1.items + [ParagraphFor(texts[|texts| - 1], st.section, st.subSection, bbox)];
    }
  }

  /** `push_text` keeps the page well sectioned: the first heading sets the section and has no
    * sub-section, a later heading keeps the section and becomes the sub-section, and every
    * paragraph carries the current section and sub-section. */
  lemma PushStepWellSectioned(st: AsmState, asHeading: bool, text: string, bbox: BBox)
    requires WellSectioned(st)
    ensures WellSectioned(PushStep(st, asHeading, text, bbox))
  {
    PushCleanedWellSectioned(st, asHeading, Cleaned(text), bbox);
  }

  lemma PushCleanedWellSectioned(st: AsmState, asHeading: bool, txt: string, bbox: BBox)
    requires WellSectioned(st)
    ensures WellSectioned(PushCleaned(st, asHeading, txt, bbox))
  {
    if txt != [] && !IsNoise(txt) {
      if asHeading {
        var x := if st.section.None? then ContentItem(HeadingItem, Some(txt), None, Some(txt), None, Some(bbox), None)
          else ContentItem(HeadingItem, st.section, Some(txt), Some(txt), None, Some(bbox), None);
        HeadingTextsSnoc(st.items, x);
        AppendCarried(st, x, x.section, x.subSection);
      } else {
        AppendParagraphs(st, Paragraphs(txt), bbox);
      }
    }
  }

  /** `push_text` only appends items, and once a section is set it is never changed; empty or
    * noise text changes nothing. */
  lemma PushStepExtends(st: AsmState, asHeading: bool, text: string, bbox: BBox)
    ensures var st' := PushStep(st, asHeading, text, bbox);
      && st.items <= st'.items
      && (st.section.Some? ==> st'.section == st.section)
      && (Cleaned(text) == [] || IsNoise(Cleaned(text)) ==> st' == st)
  {
    PushCleanedExtends(st, asHeading, Cleaned(text), bbox);
  }

  lemma PushCleanedExtends(st: AsmState, asHeading: bool, txt: string, bbox: BBox)
    ensures var st' := PushCleaned(st, asHeading, txt, bbox);
      && st.items <= st'.items
      && (st.section.Some? ==> st'.section == st.section)
      && (txt == [] || IsNoise(txt) ==> st' == st)
  {
  }

  // ---------------------------------------------------------------------------
  // Runs of equally labelled spans (parse_factsheet.py:169-189)
  // ---------------------------------------------------------------------------

  /** A buffer of consecutive span texts with one label, pushed as one text. */
  datatype Run = Run(heading: bool, texts: seq<string>)

  /** The buffer update for one labelled span. */
  function AddLabel(runs: seq<Run>, l: Labeled): seq<Run> {
    AddText(runs, l.heading, CleanText(l.span.text))
  }

  /** An empty text is skipped; a text with the buffer's label is appended to it, any other text
    * starts a new buffer. */
  function AddText(runs: seq<Run>, h: bool, t: string): seq<Run> {
    if t == [] then runs
    else if runs == [] || runs[|runs| - 1].heading != h then runs + [Run(h, [t])]
    else runs[..|runs| - 1] + [Run(h, runs[|runs| - 1].texts + [t])]
  }

  /** The runs the block loop pushes, in order. */
  function RunsOf(ls: seq<Labeled>): seq<Run> {
    if ls == [] then [] else AddLabel(RunsOf(ls[..|ls| - 1]), ls[|ls| - 1])
  }

  /** Each text of a run, paired with the run's label. */
  function Pairs(h: bool, texts: seq<string>): (r: seq<(bool, string)>)
    ensures |r| == |texts| && forall k :: 0 <= k < |r| ==> r[k] == (h, texts[k])
  {
    seq(|texts|, k requires 0 <= k < |texts| => (h, texts[k]))
  }

  /** The runs spelled out as labelled texts. */
  function Expand(runs: seq<Run>): seq<(bool, string)> {
    if runs == [] then [] else Expand(runs[..|runs| - 1]) + Pairs(runs[|runs| - 1].heading, runs[|runs| - 1].texts)
  }

  /** The labelled spans with non-empty cleaned text, as label and cleaned text. */
  function LabelTexts(ls: seq<Labeled>): seq<(bool, string)> {
    if ls == [] then []
    else
      var l := ls[|ls| - 1];
      LabelTexts(ls[..|ls| - 1]) + (if CleanText(l.span.text) == [] then [] else [(l.heading, CleanText(l.span.text))])
  }

  /** Runs are maximal: none is empty and neighbours have different labels. */
  predicate Alternating(runs: seq<Run>) {
    && (forall k :: 0 <= k < |runs| ==> runs[k].texts != [])
    && (forall k :: 0 <= k < |runs| - 1 ==> runs[k].heading != runs[k + 1].heading)
  }

  lemma ExpandSnoc(runs: seq<Run>, r: Run)
    ensures Expand(runs + [r]) == Expand(runs) + Pairs(r.heading, r.texts)
  {
    assert (runs + [r])[..|runs|] == runs;
  }

  lemma AddTextExpands(runs: seq<Run>, h: bool, t: string)
    ensures Expand(AddText(runs, h, t)) == Expand(runs) + (if t == [] then [] else [(h, t)])
  {
    if t != [] {
      if runs == [] || runs[|runs| - 1].heading != h {
        ExpandSnoc(runs, Run(h, [t]));
      } else {
        var init := runs[..|runs| - 1];
        var last := runs[|runs| - 1];
        ExpandSnoc(init, Run(h, last.texts + [t]));
        assert runs == init + [last];
        ExpandSnoc(init, last);
        assert Pairs(h, last.texts + [t]) == Pairs(h, last.texts) + [(h, t)];
      }
    }
  }

  lemma AddTextAlternates(runs: seq<Run>, h: bool, t: string)
    requires Alternating(runs)
    ensures Alternating(AddText(runs, h, t))
  {
    var r := AddText(runs, h, t);
    if t != [] && runs != [] && runs[|runs| - 1].heading == h {
      forall k | 0 <= k < |r| - 1 ensures r[k].heading != r[k + 1].heading {
        assert r[k] == runs[k];
        if k + 1 < |r| - 1 { assert r[k + 1] == runs[k + 1]; }
      }
    }
  }

  /** Grouping loses nothing and is maximal: the runs spell out exactly the labelled spans with
    * non-empty cleaned text, in order, and no two neighbouring runs share a label. */
  lemma {:induction false} RunsOfGroups(ls: seq<Labeled>)
    ensures Expand(RunsOf(ls)) == LabelTexts(ls)
    ensures Alternating(RunsOf(ls))
  {
    if ls != [] {
      RunsOfGroups(ls[..|ls| - 1]);
      var l := ls[|ls| - 1];
      AddTextExpands(RunsOf(ls[..|ls| - 1]), l.heading, CleanText(l.span.text));
      AddTextAlternates(RunsOf(ls[..|ls| - 1]), l.heading, CleanText(l.span.text));
    }
  }

  lemma RunsOfSnoc(ls: seq<Labeled>, k: nat)
    requires k < |ls|
    ensures RunsOf(ls[..k + 1]) == AddText(RunsOf(ls[..k]), ls[k].heading, CleanText(ls[k].span.text))
  {
    assert ls[..k + 1][..k] == ls[..k];
  }

  /** A text with the buffer's label extends the buffer; one with the other label closes it. */
  lemma AddTextCases(done: seq<Run>, b: bool, buf: seq<string>, h: bool, t: string)
    requires t != []
    ensures AddText(done + [Run(b, buf)], h, t)
      == if h != b then done + [Run(b, buf)] + [Run(h, [t])] else done + [Run(h, buf + [t])]
  {
    assert (done + [Run(b, buf)])[..|done|] == done;
  }

  lemma PushRunsSnoc(st: AsmState, runs: seq<Run>, r: Run, bbox: BBox)
    ensures PushRuns(st, runs + [r], bbox) == PushStep(PushRuns(st, runs, bbox), r.heading, JoinWith(r.texts, " "), bbox)
  {
    assert (runs + [r])[..|runs|] == runs;
  }

  /** Pushing the runs of a block, in order, with the block's bbox. */
  function PushRuns(st: AsmState, runs: seq<Run>, bbox: BBox): AsmState {
    if runs == [] then st
    else
      var r := runs[|runs| - 1];
      PushStep(PushRuns(st, runs[..|runs| - 1], bbox), r.heading, JoinWith(r.texts, " "), bbox)
  }

  /** `[x0, y0, x1, y1] = b.get("bbox", [0, 0, 0, 0])`. */
  function BlockBox(b: Block): BBox {
    b.bbox.GetOr(ZERO_BOX)
  }

  /** The buffer of the span loop: empty, with no label, until the first text, and never empty
    * once it has one. Nothing is pushed before the buffer first fills. */
  predicate BufferShape(bufType: Option<bool>, bufText: seq<string>, done: seq<Run>) {
    (bufType.None? ==> bufText == [] && done == []) && (bufType.Some? ==> bufText != [])
  }

  /** The run still held in the buffer, if any. */
  function OpenRun(bufType: Option<bool>, bufText: seq<string>): seq<Run> {
    if bufType.Some? then [Run(bufType.value, bufText)] else []
  }

  /** One iteration of the block loop. */
  function BlockStep(st: AsmState, b: Block): AsmState {
    PushRuns(st, RunsOf(ClassifySpans(b)), BlockBox(b))
  }

  /** The blocks, one after the other. */
  function BlocksFold(st: AsmState, bs: seq<Block>): AsmState {
    if bs == [] then st else BlockStep(BlocksFold(st, bs[..|bs| - 1]), bs[|bs| - 1])
  }

  /** The sort key of a block, `(y0, x0)` of its bbox. */
  function BlockKey(b: Block): Key {
    (BlockBox(b).y0, BlockBox(b).x0)
  }

  // ---------------------------------------------------------------------------
  // Chart placeholders (parse_factsheet.py:191-203) and the whole page
  // ---------------------------------------------------------------------------

  function ChartFor(section: Option<string>, sub: Option<string>): ContentItem {
    ContentItem(ChartItem, section, sub, Some(CHART_TEXT), None, Some(ZERO_BOX), Some(CHART_NOTE))
  }

  /** `n` chart placeholders appended in the current section and sub-section. */
  function WithCharts(st: AsmState, n: nat): AsmState {
    if n == 0 then st
    else
      var st1 := WithCharts(st, n - 1);
      AsmState(st1.items + [ChartFor(st1.section, st1.subSection)], st1.section, st1.subSection)
  }

  /** What `group_page_content` is given for one page: its text blocks and its number of images. */
  datatype PageInput = PageInput(blocks: seq<Block>, imageCount: nat)

  /** The final state of the assembler for one page. */
  function AssembledPage(p: PageInput): AsmState {
    WithCharts(BlocksFold(INIT, SortBy(p.blocks, BlockKey)), p.imageCount)
  }

  lemma {:induction false} PushRunsWellSectioned(st: AsmState, runs: seq<Run>, bbox: BBox)
    requires WellSectioned(st)
    ensures WellSectioned(PushRuns(st, runs, bbox))
  {
    if runs != [] {
      var r := runs[|runs| - 1];
      PushRunsWellSectioned(st, runs[..|runs| - 1], bbox);
      PushStepWellSectioned(PushRuns(st, runs[..|runs| - 1], bbox), r.heading, JoinWith(r.texts, " "), bbox);
    }
  }

  lemma {:induction false} BlocksFoldWellSectioned(st: AsmState, bs: seq<Block>)
    requires WellSectioned(st)
    ensures WellSectioned(BlocksFold(st, bs))
  {
    if bs != [] {
      BlocksFoldWellSectioned(st, bs[..|bs| - 1]);
      var st1 := BlocksFold(st, bs[..|bs| - 1]);
      var b := bs[|bs| - 1];
      PushRunsWellSectioned(st1, RunsOf(ClassifySpans(b)), BlockBox(b));
    }
  }

  /** Chart placeholders carry the current section and sub-section and change neither. */
  lemma {:induction false} WithChartsWellSectioned(st: AsmState, n: nat)
    requires WellSectioned(st)
    ensures var st' := WithCharts(st, n);
      && WellSectioned(st') && st'.section == st.section && st'.subSection == st.subSection
      && |st'.items| == |st.items| + n && st.items <= st'.items
      && forall k :: |st.items| <= k < |st'.items| ==> st'.items[k] == ChartFor(st.section, st.subSection)
  {
    if n > 0 {
      WithChartsWellSectioned(st, n - 1);
      var st1 := WithCharts(st, n - 1);
      var x := ChartFor(st1.section, st1.subSection);
      HeadingTextsSnoc(st1.items, x);
      AppendCarried(st1, x, st1.section, st1.subSection);
    }
  }

  /** On every assembled page each item carries the section and sub-section its preceding
    * headings establish: the first heading names the section and has no sub-section, every
    * later heading keeps that section and names the sub-section, and paragraphs and charts
    * carry the latest ones. */
  lemma AssembledPageWellSectioned(p: PageInput)
    ensures WellSectioned(AssembledPage(p))
  {
    var st := BlocksFold(INIT, SortBy(p.blocks, BlockKey));
    BlocksFoldWellSectioned(INIT, SortBy(p.blocks, BlockKey));
    WithChartsWellSectioned(st, p.imageCount);
  }

  /** The blocks are taken in reading order: top to bottom, then left to right, with blocks of
    * equal position in their original order. */
  lemma BlocksInReadingOrder(p: PageInput)
    ensures SortedBy(SortBy(p.blocks, BlockKey), BlockKey)
    ensures multiset(SortBy(p.blocks, BlockKey)) == multiset(p.blocks)
    ensures forall k :: WithKey(SortBy(p.blocks, BlockKey), BlockKey, k) == WithKey(p.blocks, BlockKey, k)
  {
    SortBySortedPermutation(p.blocks, BlockKey);
    forall k ensures WithKey(SortBy(p.blocks, BlockKey), BlockKey, k) == WithKey(p.blocks, BlockKey, k) {
      SortByStable(p.blocks, BlockKey, k);
    }
  }

  /** `items` followed by one paragraph per non-empty stripped part, in order. */
  method AppendParagraphsOf(items0: seq<ContentItem>, parts: seq<string>, section: Option<string>, sub: Option<string>, bbox: BBox)
    returns (items: seq<ContentItem>)
    ensures items == items0 + ParagraphItems(KeepParts(parts), section, sub, bbox)
  {
    items := items0;
    ghost var kept: seq<string> := [];
    for k := 0 to |parts|
      invariant kept == KeepParts(parts[..k])
      invariant items == items0 + ParagraphItems(kept, section, sub, bbox)
    {
      var part := Strip(parts[k]);
      KeptSnoc(parts, k, kept);
      if part != [] {
        ItemsSnoc(items0, items, kept, part, section, sub, bbox);
        items := items + [ParagraphFor(part, section, sub, bbox)];
        kept := kept + [part];
      }
    }
    assert parts[..|parts|] == parts;
  }

  // ---------------------------------------------------------------------------
  // The assembler of one page, with the `nonlocal` state of `push_text` as fields
  // ---------------------------------------------------------------------------

  class PageAssembler {
    var items: seq<ContentItem>
    var section: Option<string>
    var subSection: Option<string>

    function State(): AsmState
      reads this
    {
      AsmState(items, section, subSection)
    }

    constructor ()
      ensures State() == INIT
    {
      items := [];
      section := None;
      subSection := None;
    }

    /** `push_text`. */
    method PushText(asHeading: bool, text: string, bbox: BBox)
      modifies this
      ensures State() == PushStep(old(State()), asHeading, text, bbox)
    {
      var txt := Cleaned(text);
      PushCleanedText(asHeading, txt, bbox);
    }

    /** `push_text` after the text is cleaned and its glued terms are fixed. */
    method PushCleanedText(asHeading: bool, txt: string, bbox: BBox)
      modifies this
      ensures State() == PushCleaned(old(State()), asHeading, txt, bbox)
    {
      if txt == [] || IsNoise(txt) {
        return;
      }
      if asHeading {
        if section.None? {
          section := Some(txt);
          items := items + [ContentItem(HeadingItem, section, None, Some(txt), None, Some(bbox), None)];
        } else {
          subSection := Some(txt);
          items := items + [ContentItem(HeadingItem, section, subSection, Some(txt), None, Some(bbox), None)];
        }
      } else if |txt| > PARAGRAPH_LIMIT {
        AppendParts(SplitSentences(txt), bbox);
      } else {
        items := items + [ParagraphFor(txt, section, subSection, bbox)];
      }
    }

    /** The paragraphs of a long body text. */
    method AppendParts(parts: seq<string>, bbox: BBox)
      modifies this
      ensures State() == AsmState(old(items) + ParagraphItems(KeepParts(parts), section, subSection, bbox), old(section), old(subSection))
    {
      items := AppendParagraphsOf(items, parts, section, subSection, bbox);
    }

    /** One iteration of the block loop: the labelled spans of `b` are buffered while their label
      * stays the same, and each buffer is pushed, joined by spaces, when the label changes and
      * at the end of the block. */
    method AddBlock(b: Block)
      modifies this
      ensures State() == BlockStep(old(State()), b)
    {
      var labels := ClassifySpans(b);
      AddLabels(labels, BlockBox(b));
    }

    /** The span loop over the labelled spans of a block. */
    method AddLabels(labels: seq<Labeled>, box: BBox)
      modifies this
      ensures State() == PushRuns(old(State()), RunsOf(labels), box)
    {
      var bufType: Option<bool> := None;
      var bufText: seq<string> := [];
      ghost var done: seq<Run> := [];
      ghost var st0 := State();
      for k := 0 to |labels|
        invariant BufferShape(bufType, bufText, done)
        invariant RunsOf(labels[..k]) == done + OpenRun(bufType, bufText)
        invariant State() == PushRuns(st0, done, box)
      {
        RunsOfSnoc(labels, k);
        bufType, bufText, done := AddSpan(labels[k], bufType, bufText, done, st0, box);
      }
      assert labels[..|labels|] == labels;
      Flush(bufType, bufText, done, st0, box);
    }

    /** The push after the span loop: a buffer still holding texts is pushed. */
    method Flush(bufType: Option<bool>, bufText: seq<string>, ghost done: seq<Run>, ghost st0: AsmState, box: BBox)
      modifies this
      requires BufferShape(bufType, bufText, done)
      requires State() == PushRuns(st0, done, box)
      ensures State() == PushRuns(st0, done + OpenRun(bufType, bufText), box)
    {
      if bufText != [] {
        PushRunsSnoc(st0, done, Run(bufType.value, bufText), box);
        PushText(bufType.value, JoinWith(bufText, " "), box);
      } else {
        assert done + OpenRun(bufType, bufText) == done;
      }
    }

    /** The body of the span loop for one labelled span: a blank text is skipped, a text with the
      * buffer's label joins the buffer, and one with the other label pushes the buffer first. */
    method AddSpan(l: Labeled, bufType: Option<bool>, bufText: seq<string>, ghost done: seq<Run>,
                    ghost st0: AsmState, box: BBox)
      returns (bufType': Option<bool>, bufText': seq<string>, ghost done': seq<Run>)
      modifies this
      requires BufferShape(bufType, bufText, done)
      requires State() == PushRuns(st0, done, box)
      ensures BufferShape(bufType', bufText', done')
      ensures done' + OpenRun(bufType', bufText')
        == AddText(done + OpenRun(bufType, bufText), l.heading, CleanText(l.span.text))
      ensures State() == PushRuns(st0, done', box)
    {
      var t := CleanText(l.span.text);
      bufType', bufText', done' := bufType, bufText, done;
      if t == [] {
        return;
      }
      var typ := l.heading;
      if bufType.None? {
        bufType' := Some(typ);
        bufText' := [t];
      } else if typ != bufType.value {
        AddTextCases(done, bufType.value, bufText, typ, t);
        PushRunsSnoc(st0, done, Run(bufType.value, bufText), box);
        PushText(bufType.value, JoinWith(bufText, " "), box);
        done' := done + [Run(bufType.value, bufText)];
        bufText' := [t];
        bufType' := Some(typ);
      } else {
        AddTextCases(done, bufType.value, bufText, typ, t);
        bufText' := bufText + [t];
      }
    }

    /** The chart placeholders, one per image. */
    method AddCharts(n: nat)
      modifies this
      ensures State() == WithCharts(old(State()), n)
    {
      for k := 0 to n
        invariant State() == WithCharts(old(State()), k)
      {
        items := items + [ChartFor(section, subSection)];
      }
    }
  }

  /** The content of one page: its blocks in reading order, then its chart placeholders. */
  method AssemblePage(p: PageInput) returns (items: seq<ContentItem>)
    ensures items == AssembledPage(p).items
  {
    var blocks := SortBy(p.blocks, BlockKey);
    var asm := new PageAssembler();
    for k := 0 to |blocks|
      invariant asm.State() == BlocksFold(INIT, blocks[..k])
    {
      BlocksFoldSnoc(INIT, blocks, k);
      asm.AddBlock(blocks[k]);
    }
    assert blocks[..|blocks|] == blocks;
    asm.AddCharts(p.imageCount);
    items := asm.items;
  }

  lemma BlocksFoldSnoc(st: AsmState, bs: seq<Block>, k: nat)
    requires k < |bs|
    ensures BlocksFold(st, bs[..k + 1]) == BlockStep(BlocksFold(st, bs[..k]), bs[k])
  {
    assert bs[..k + 1][..k] == bs[..k];
  }

  /** `group_page_content` on plain data: page `i` is numbered `i + 1` and its content is what
    * the assembler builds from its blocks in reading order and its images. */
  method GroupPageContent(pages: seq<PageInput>) returns (out: seq<Page>)
    ensures |out| == |pages|
    ensures forall i :: 0 <= i < |out| ==> fresh(out[i])
    ensures forall i :: 0 <= i < |out| ==> out[i].pageNumber == i + 1 && out[i].content == AssembledPage(pages[i]).items
    ensures forall i, j :: 0 <= i < j < |out| ==> out[i] != out[j]
  {
    var contents := AssembleAll(pages);
    out := MakePages(contents);
  }

  /** One page per content list, numbered from 1. */
  method MakePages(contents: seq<seq<ContentItem>>) returns (out: seq<Page>)
    ensures |out| == |contents|
    ensures forall i :: 0 <= i < |out| ==> fresh(out[i])
    ensures forall i :: 0 <= i < |out| ==> out[i].pageNumber == i + 1 && out[i].content == contents[i]
    ensures forall i, j :: 0 <= i < j < |out| ==> out[i] != out[j]
  {
    out := [];
    for i := 0 to |contents|
      invariant |out| == i
      invariant forall j :: 0 <= j < i ==> fresh(out[j])
      invariant forall j :: 0 <= j < i ==> out[j].pageNumber == j + 1 && out[j].content == contents[j]
      invariant forall j, j' :: 0 <= j < j' < i ==> out[j] != out[j']
    {
      var page := new Page(i + 1, contents[i]);
      out := out + [page];
    }
  }

  /** The content of every page, in page order. */
  method AssembleAll(pages: seq<PageInput>) returns (contents: seq<seq<ContentItem>>)
    ensures |contents| == |pages|
    ensures forall i :: 0 <= i < |pages| ==> contents[i] == AssembledPage(pages[i]).items
  {
    contents := [];
    for i := 0 to |pages|
      invariant |contents| == i
      invariant forall j :: 0 <= j < i ==> contents[j] == AssembledPage(pages[j]).items
    {
      var items := AssemblePage(pages[i]);
      SnocPointwise(contents, items);
      contents := contents + [items];
    }
  }
}
