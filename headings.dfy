/** The heading classifier, `classify_spans_as_headings` (parse_factsheet.py:115-127). */
module Headings {
  import opened Wrappers
  import opened CharClass
  import opened Text
  import opened Content

  /** The default `size_threshold`. */
  const SIZE_THRESHOLD: real := 11.0

  /** The size a span without one is given. */
  const DEFAULT_SIZE: real := 10.0

  /** Python's `str.isupper`: at least one cased character and no lower-case one. */
  predicate IsUpperText(t: string) {
    (exists k :: 0 <= k < |t| && IsLetter(t[k])) && forall k :: 0 <= k < |t| ==> !IsLower(t[k])
  }

  /** The rule for one span: a font size at or above the threshold, or cleaned text that is
    * upper-case and has at most six words. */
  predicate IsHeadingSpan(sp: Span) {
    var t := CleanText(sp.text);
    sp.size.GetOr(DEFAULT_SIZE) >= SIZE_THRESHOLD || (IsUpperText(t) && |Words(t)| <= 6)
  }

  /** A span with its label: heading or body. */
  datatype Labeled = Labeled(heading: bool, span: Span)

  /** A label given to a span with non-empty cleaned text, saying heading iff the rule holds. */
  predicate CorrectLabel(l: Labeled) {
    CleanText(l.span.text) != [] && (l.heading <==> IsHeadingSpan(l.span))
  }

  /** The spans of all lines, line by line. */
  function Flatten(lines: seq<seq<Span>>): seq<Span> {
    if lines == [] then [] else lines[0] + Flatten(lines[1..])
  }

  /** The label of one span: none when its cleaned text is empty. */
  function LabelOne(sp: Span): (r: seq<Labeled>)
    ensures |r| <= 1
  {
    if CleanText(sp.text) == [] then [] else [Labeled(IsHeadingSpan(sp), sp)]
  }

  /** The concatenation of `f(x)` over the elements `x` of `s`, in order. */
  function FlatMap<T(!new), U>(s: seq<T>, f: T -> seq<U>): (r: seq<U>)
    ensures (forall x :: |f(x)| <= 1) ==> |r| <= |s|
  {
    if s == [] then [] else f(s[0]) + FlatMap(s[1..], f)
  }

  lemma {:induction false} FlatMapAppend<T(!new), U>(a: seq<T>, b: seq<T>, f: T -> seq<U>)
    ensures FlatMap(a + b, f) == FlatMap(a, f) + FlatMap(b, f)
  {
    if a == [] {
      assert a + b == b;
    } else {
      assert (a + b)[0] == a[0];
      assert (a + b)[1..] == a[1..] + b;
      FlatMapAppend(a[1..], b, f);
    }
  }

  /** Every element of a flat map comes from one of the elements mapped. */
  lemma {:induction false} FlatMapOrigin<T(!new), U>(s: seq<T>, f: T -> seq<U>, k: nat) returns (i: nat)
    requires k < |FlatMap(s, f)|
    ensures i < |s| && FlatMap(s, f)[k] in f(s[i])
  {
    var one := f(s[0]);
    if k < |one| {
      i := 0;
      assert FlatMap(s, f)[k] == one[k];
    } else {
      var j := FlatMapOrigin(s[1..], f, k - |one|);
      i := j + 1;
      assert FlatMap(s, f)[k] == FlatMap(s[1..], f)[k - |one|];
    }
  }

  /** One label per span whose cleaned text is not empty, in order. */
  function LabelSpans(spans: seq<Span>): (r: seq<Labeled>)
    ensures |r| <= |spans|
  {
    FlatMap(spans, LabelOne)
  }

  /** Every label produced is correct: it belongs to a span with non-empty cleaned text and
    * says heading exactly when the rule holds. */
  lemma LabelOneCorrect(sp: Span)
    ensures forall l :: l in LabelOne(sp) ==> CorrectLabel(l)
  {
  }

  lemma LabelSpansCorrect(spans: seq<Span>)
    ensures forall k :: 0 <= k < |LabelSpans(spans)| ==> CorrectLabel(LabelSpans(spans)[k])
  {
    forall k | 0 <= k < |LabelSpans(spans)| ensures CorrectLabel(LabelSpans(spans)[k]) {
      var i := FlatMapOrigin(spans, LabelOne, k);
      LabelOneCorrect(spans[i]);
    }
  }

  /** `classify_spans_as_headings` with the default threshold. */
  function ClassifySpans(b: Block): seq<Labeled> {
    LabelSpans(Flatten(b.lines))
  }

  /** Labelling distributes over concatenation: nothing is reordered or labelled twice. */
  lemma LabelSpansAppend(a: seq<Span>, b: seq<Span>)
    ensures LabelSpans(a + b) == LabelSpans(a) + LabelSpans(b)
  {
    FlatMapAppend(a, b, LabelOne);
  }

  /** One span: no label when its cleaned text is empty, otherwise exactly one, heading iff the rule holds. */
  lemma LabelSpansSingle(sp: Span)
    ensures LabelSpans([sp]) == if CleanText(sp.text) == [] then [] else [Labeled(IsHeadingSpan(sp), sp)]
  {
    assert [sp][1..] == [];
    assert LabelSpans([sp]) == LabelOne(sp) + [];
  }

  /** The spans whose cleaned text is not empty, in order. */
  function NonBlank(spans: seq<Span>): (r: seq<Span>)
    ensures |r| <= |spans|
    ensures forall sp :: sp in r <==> sp in spans && CleanText(sp.text) != []
  {
    if spans == [] then []
    else (if CleanText(spans[0].text) == [] then [] else [spans[0]]) + NonBlank(spans[1..])
  }

  /** The elements `x` of `s` with non-empty `f(x)`, in order. */
  function Kept<T(!new), U>(s: seq<T>, f: T -> seq<U>): (r: seq<T>)
    ensures |r| <= |s|
  {
    if s == [] then [] else (if f(s[0]) == [] then [] else [s[0]]) + Kept(s[1..], f)
  }

  /** When `f` gives at most one element, a flat map is a filter-map: its `k`-th element is the
    * one element of `f` at the `k`-th kept element. */
  lemma {:induction false} FlatMapOfSingles<T(!new), U>(s: seq<T>, f: T -> seq<U>)
    requires forall x :: |f(x)| <= 1
    ensures |FlatMap(s, f)| == |Kept(s, f)|
    ensures forall k :: 0 <= k < |Kept(s, f)| ==> |f(Kept(s, f)[k])| == 1 && FlatMap(s, f)[k] == f(Kept(s, f)[k])[0]
  {
    if s != [] {
      var x, rest := s[0], s[1..];
      FlatMapOfSingles(rest, f);
      var out, kept, outRest, keptRest := FlatMap(s, f), Kept(s, f), FlatMap(rest, f), Kept(rest, f);
      assert out == f(x) + outRest;
      if f(x) == [] {
        assert kept == keptRest && out == outRest;
      } else {
        assert kept == [x] + keptRest && out == [f(x)[0]] + outRest;
        forall k | 0 <= k < |kept| ensures |f(kept[k])| == 1 && out[k] == f(kept[k])[0] {
          if k > 0 {
            assert kept[k] == keptRest[k - 1] && out[k] == outRest[k - 1];
          }
        }
      }
    }
  }

  lemma {:induction false} NonBlankKept(spans: seq<Span>)
    ensures NonBlank(spans) == Kept(spans, LabelOne)
  {
    if spans != [] {
      NonBlankKept(spans[1..]);
      assert LabelOne(spans[0]) == [] <==> CleanText(spans[0].text) == [];
    }
  }

  /** Labelling is a filter-map: the labels are the non-blank spans, in order, each marked
    * heading exactly when the rule holds. */
  lemma LabelSpansFilterMap(spans: seq<Span>)
    ensures |LabelSpans(spans)| == |NonBlank(spans)|
    ensures forall k :: 0 <= k < |NonBlank(spans)| ==>
      LabelSpans(spans)[k] == Labeled(IsHeadingSpan(NonBlank(spans)[k]), NonBlank(spans)[k])
  {
    FlatMapOfSingles(spans, LabelOne);
    NonBlankKept(spans);
    var kept := NonBlank(spans);
    forall k | 0 <= k < |kept|
      ensures LabelSpans(spans)[k] == Labeled(IsHeadingSpan(kept[k]), kept[k])
    {
      var sp := kept[k];
      assert LabelSpans(spans)[k] == LabelOne(sp)[0];
      assert LabelOne(sp) == [Labeled(IsHeadingSpan(sp), sp)];
    }
  }

  /** A span in lower case is a heading exactly when its size reaches the threshold. */
  lemma LowerCaseHeadingBySize(sp: Span)
    requires exists k :: 0 <= k < |CleanText(sp.text)| && IsLower(CleanText(sp.text)[k])
    ensures IsHeadingSpan(sp) <==> sp.size.GetOr(DEFAULT_SIZE) >= SIZE_THRESHOLD
  {
  }
}
