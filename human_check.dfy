/**
 * The human-likeness report: sentence-length spread, word repetition and
 * overlap with the source texts folded into one clamped score with hints.
 */
module HumanCheck {
  import opened Text
  import opened Collections
  import opened Stats

  // ----- _sentences -----

  /** The characters of the sentence-splitting class: '.', '!', the Arabic question mark, '?' and newline. */
  predicate IsSentenceEnd(c: char) {
    c == '.' || c == '!' || c == '؟' || c == '?' || c == '\n'
  }

  predicate IsNotSentenceEnd(c: char) {
    !IsSentenceEnd(c)
  }

  /**
   * `_sentences(text)`: the stripped, non-empty pieces between runs of
   * sentence ends. The empty pieces `re.split` yields at the edges are
   * dropped by the filter, so the maximal runs of other characters suffice.
   */
  function Sentences(text: string): (r: seq<string>)
    ensures forall k :: 0 <= k < |r| ==> r[k] != [] && !IsSpace(r[k][0]) && !IsSpace(r[k][|r[k]| - 1])
  {
    StrippedNonEmpty(Runs(text, IsNotSentenceEnd))
  }

  /** No sentence contains a sentence end. */
  lemma SentencesHaveNoEnd(text: string)
    ensures forall k, i :: 0 <= k < |Sentences(text)| && 0 <= i < |Sentences(text)[k]| ==>
      !IsSentenceEnd(Sentences(text)[k][i])
  {
    StrippedKeepsChars(Runs(text, IsNotSentenceEnd), IsNotSentenceEnd);
  }

  lemma {:induction false} StrippedKeepsChars(parts: seq<string>, p: char -> bool)
    requires forall k, i :: 0 <= k < |parts| && 0 <= i < |parts[k]| ==> p(parts[k][i])
    ensures forall k, i :: 0 <= k < |StrippedNonEmpty(parts)| && 0 <= i < |StrippedNonEmpty(parts)[k]| ==>
      p(StrippedNonEmpty(parts)[k][i])
    decreases |parts|
  {
    if parts != [] {
      var s := Strip(parts[0]);
      StripIsSlice(parts[0]);
      assert forall i :: 0 <= i < |s| ==> p(s[i]);
      var t := parts[1..];
      forall k, i | 0 <= k < |t| && 0 <= i < |t[k]| ensures p(t[k][i]) {
        assert t[k] == parts[k + 1];
      }
      StrippedKeepsChars(t, p);
      var rest := StrippedNonEmpty(t);
      if s == [] {
        assert StrippedNonEmpty(parts) == rest;
      } else {
        var r := [s] + rest;
        assert StrippedNonEmpty(parts) == r;
        forall k, i | 0 <= k < |r| && 0 <= i < |r[k]| ensures p(r[k][i]) {
          if k > 0 {
            assert r[k] == rest[k - 1];
          }
        }
      }
    }
  }

  /** Cutting the text at a sentence end cuts its sentence list there too. */
  lemma SentencesSplitAt(a: string, c: char, b: string)
    requires IsSentenceEnd(c)
    ensures Sentences(a + [c] + b) == Sentences(a) + Sentences(b)
  {
    RunsSplitAt(a, c, b, IsNotSentenceEnd);
    StrippedNonEmptyAppend(Runs(a, IsNotSentenceEnd), Runs(b, IsNotSentenceEnd));
  }

  /** A text without sentence ends and not blank is one sentence: itself, stripped. */
  lemma OneSentence(text: string)
    requires forall i :: 0 <= i < |text| ==> !IsSentenceEnd(text[i])
    requires Strip(text) != []
    ensures Sentences(text) == [Strip(text)]
  {
    assert text != [] && IsNotSentenceEnd(text[0]);
    assert text[..|text|] == text;
    SpanIs(text, IsNotSentenceEnd, |text|);
    assert Runs(text[|text|..], IsNotSentenceEnd) == [] by { assert text[|text|..] == []; }
    assert Runs(text, IsNotSentenceEnd) == [text];
    assert StrippedNonEmpty([text][1..]) == [] by { assert [text][1..] == []; }
  }

  lemma {:induction false} StrippedNonEmptyAppend(x: seq<string>, y: seq<string>)
    ensures StrippedNonEmpty(x + y) == StrippedNonEmpty(x) + StrippedNonEmpty(y)
    decreases |x|
  {
    if x == [] {
      assert x + y == y;
    } else {
      assert (x + y)[0] == x[0] && (x + y)[1..] == x[1..] + y;
      StrippedNonEmptyAppend(x[1..], y);
    }
  }

  // ----- the ratios -----

  /** `part / (whole or 1)`: a share, with `or 1` keeping an empty whole from dividing by zero. */
  function Share(part: nat, whole: nat): (r: real)
    requires part <= whole
    ensures 0.0 <= r <= 1.0
    ensures whole == 0 ==> r == 0.0
  {
    if whole == 0 then 0.0 else ShareBounds(part, whole); part as real / whole as real
  }

  lemma ShareBounds(part: nat, whole: nat)
    requires 0 < whole && part <= whole
    ensures 0.0 <= part as real / whole as real <= 1.0
  {
    var q := part as real / whole as real;
    assert q * whole as real == part as real;
  }

  /** A share is the whole exactly when the part is the whole. */
  lemma ShareIsOneIff(part: nat, whole: nat)
    requires part <= whole
    ensures Share(part, whole) == 1.0 <==> whole > 0 && part == whole
  {
    if whole > 0 {
      var q := part as real / whole as real;
      assert q * whole as real == part as real;
    }
  }

  /** `rep_ratio = 1 - len(set(words)) / (len(words) or 1)`. */
  function RepRatio(text: string): (r: real)
    ensures 0.0 <= r <= 1.0
    ensures SplitWs(text) == [] ==> r == 1.0
  {
    var words := SplitWs(text);
    1.0 - Share(|Elements(words)|, |words|)
  }

  /** No repetition at all exactly when the text has words and none of them repeats. */
  lemma RepRatioZeroIff(text: string)
    ensures RepRatio(text) == 0.0 <==> SplitWs(text) != [] && Distinct(SplitWs(text))
  {
    var words := SplitWs(text);
    ElementsCountDistinct(words);
    ShareIsOneIff(|Elements(words)|, |words|);
  }

  /** How many of `words` occur in `src`: `len([1 for w in words if w in src])`. */
  function OverlapCount(words: seq<string>, src: set<string>): (n: nat)
    ensures n <= |words|
    decreases |words|
  {
    if words == [] then 0
    else OverlapCount(words[..|words| - 1], src) + (if words[|words| - 1] in src then 1 else 0)
  }

  /** The count is the full length exactly when every word occurs in `src`. */
  lemma {:induction false} OverlapCountAllIff(words: seq<string>, src: set<string>)
    ensures OverlapCount(words, src) == |words| <==> forall i :: 0 <= i < |words| ==> words[i] in src
    decreases |words|
  {
    if words != [] {
      var n := |words| - 1;
      OverlapCountAllIff(words[..n], src);
      assert forall i :: 0 <= i < n ==> words[..n][i] == words[i];
    }
  }

  /** No word in `src` means a count of zero, and conversely. */
  lemma {:induction false} OverlapCountNoneIff(words: seq<string>, src: set<string>)
    ensures OverlapCount(words, src) == 0 <==> forall i :: 0 <= i < |words| ==> words[i] !in src
    decreases |words|
  {
    if words != [] {
      var n := |words| - 1;
      OverlapCountNoneIff(words[..n], src);
      assert forall i :: 0 <= i < n ==> words[..n][i] == words[i];
    }
  }

  /** `src_overlap`: 0 without sources, else the share of the text's words found among the sources' words. */
  function SrcOverlap(text: string, sources: string): (r: real)
    ensures 0.0 <= r <= 1.0
    ensures sources == [] ==> r == 0.0
  {
    if sources == [] then 0.0
    else
      var words := SplitWs(text);
      Share(OverlapCount(words, Elements(SplitWs(sources))), |words|)
  }

  /** The overlap is total exactly when the text has words and every one of them is a word of the sources. */
  lemma SrcOverlapOneIff(text: string, sources: string)
    requires sources != []
    ensures SrcOverlap(text, sources) == 1.0 <==>
      SplitWs(text) != [] && forall i :: 0 <= i < |SplitWs(text)| ==> SplitWs(text)[i] in SplitWs(sources)
  {
    var words := SplitWs(text);
    var src := Elements(SplitWs(sources));
    OverlapCountAllIff(words, src);
    ShareIsOneIff(OverlapCount(words, src), |words|);
  }

  // ----- score and hints -----

  function Min(a: real, b: real): (r: real)
    ensures r <= a && r <= b && (r == a || r == b)
  {
    if a <= b then a else b
  }

  function Max(a: real, b: real): (r: real)
    ensures r >= a && r >= b && (r == a || r == b)
  {
    if a >= b then a else b
  }

  /** `max(0, min(100, 60 + min(20, var_len) - rep_ratio*30 - src_overlap*30))`. */
  function Score(varLen: real, repRatio: real, srcOverlap: real): (r: real)
    ensures 0.0 <= r <= 100.0
  {
    Max(0.0, Min(100.0, 60.0 + Min(20.0, varLen) - repRatio * 30.0 - srcOverlap * 30.0))
  }

  /**
   * The design's direction: more spread in sentence length, less repetition
   * and less overlap with the sources never lower the score.
   */
  lemma ScoreMonotone(v1: real, r1: real, o1: real, v2: real, r2: real, o2: real)
    requires v1 <= v2 && r2 <= r1 && o2 <= o1
    ensures Score(v1, r1, o1) <= Score(v2, r2, o2)
  {
  }

  /**
   * With both ratios in [0,1] and a non-negative variance the raw formula
   * already lies in [0,80], so the clamp never acts.
   */
  lemma ClampNeverActs(varLen: real, repRatio: real, srcOverlap: real)
    requires varLen >= 0.0 && 0.0 <= repRatio <= 1.0 && 0.0 <= srcOverlap <= 1.0
    ensures Score(varLen, repRatio, srcOverlap) == 60.0 + Min(20.0, varLen) - repRatio * 30.0 - srcOverlap * 30.0
    ensures Score(varLen, repRatio, srcOverlap) <= 80.0
  {
  }

  const HINT_REPETITION := "خفض التكرار بإعادة صياغة الأفكار."
  const HINT_LENGTHS := "نوّع أطوال الجمل لتبدو طبيعية."
  const HINT_SOURCES := "ابتعد أكثر عن صياغة المصادر المباشرة."

  /** Where each hint stands in the fixed order of the checks; other strings get no rank. */
  function HintRank(h: string): (k: int)
    ensures -1 <= k <= 2
  {
    if h == HINT_REPETITION then 0
    else if h == HINT_LENGTHS then 1
    else if h == HINT_SOURCES then 2
    else -1
  }

  /** Only the three hints, each at most once, in the order of the checks. */
  predicate InCheckOrder(hints: seq<string>) {
    && (forall i :: 0 <= i < |hints| ==> 0 <= HintRank(hints[i]))
    && (forall i, j :: 0 <= i < j < |hints| ==> HintRank(hints[i]) < HintRank(hints[j]))
  }

  /** Hints in check order are at most three. */
  lemma {:induction false} InCheckOrderBound(hints: seq<string>)
    requires InCheckOrder(hints)
    ensures |hints| <= 3
  {
    if |hints| > 3 {
      var r0, r1, r2, r3 := HintRank(hints[0]), HintRank(hints[1]), HintRank(hints[2]), HintRank(hints[3]);
      assert false;
    }
  }

  /** The three conditional appends of the report. */
  method Suggestions(repRatio: real, varLen: real, srcOverlap: real) returns (hints: seq<string>)
    ensures HINT_REPETITION in hints <==> repRatio > 0.4
    ensures HINT_LENGTHS in hints <==> varLen < 10.0
    ensures HINT_SOURCES in hints <==> srcOverlap > 0.25
    ensures InCheckOrder(hints)
    ensures |hints| <= 3
  {
    hints := [];
    if repRatio > 0.4 {
      hints := hints + [HINT_REPETITION];
    }
    if varLen < 10.0 {
      hints := hints + [HINT_LENGTHS];
    }
    if srcOverlap > 0.25 {
      hints := hints + [HINT_SOURCES];
    }
  }

  // ----- human_likeness_report -----

  datatype HumanReport = HumanReport(
    score: real,
    sentenceCount: nat,
    avgSentenceWords: real,
    repetitionRatio: real,
    sourceOverlapRatio: real,
    suggestions: seq<string>)

  /** Words per sentence. */
  function SentenceLengths(sents: seq<string>): (r: seq<nat>)
    ensures |r| == |sents|
    ensures forall i :: 0 <= i < |sents| ==> r[i] == |SplitWs(sents[i])|
  {
    seq(|sents|, i requires 0 <= i < |sents| => |SplitWs(sents[i])|)
  }

  /** `human_likeness_report(text, sources_text)`, before the two-decimal rounding. */
  method HumanLikenessReport(text: string, sources: string) returns (r: HumanReport)
    ensures r.sentenceCount == |Sentences(text)|
    ensures r.repetitionRatio == RepRatio(text) && r.sourceOverlapRatio == SrcOverlap(text, sources)
    ensures var lens := SentenceLengths(Sentences(text));
      r.score == Score(Variance(lens), RepRatio(text), SrcOverlap(text, sources))
      && r.avgSentenceWords == (if lens == [] then 0.0 else Mean(lens))
      && (HINT_LENGTHS in r.suggestions <==> Variance(lens) < 10.0)
    ensures 0.0 <= r.score <= 100.0
    ensures 0.0 <= r.repetitionRatio <= 1.0 && 0.0 <= r.sourceOverlapRatio <= 1.0
    ensures HINT_REPETITION in r.suggestions <==> RepRatio(text) > 0.4
    ensures HINT_SOURCES in r.suggestions <==> SrcOverlap(text, sources) > 0.25
    ensures InCheckOrder(r.suggestions) && |r.suggestions| <= 3
  {
    var sents := Sentences(text);
    var lens := SentenceLengths(sents);
    var varLen := Variance(lens);
    var rep := RepRatio(text);
    var overlap := SrcOverlap(text, sources);
    var hints := Suggestions(rep, varLen, overlap);
    var avg := if lens == [] then 0.0 else Mean(lens);
    r := HumanReport(Score(varLen, rep, overlap), |sents|, avg, rep, overlap, hints);
    assert r.suggestions == hints;
  }

  /** A blank text: no sentences, a repetition ratio of 1 and, without sources, a score of 30. */
  lemma BlankTextReport(text: string)
    requires forall i :: 0 <= i < |text| ==> IsSpace(text[i])
    ensures Sentences(text) == [] && RepRatio(text) == 1.0
    ensures Score(Variance(SentenceLengths(Sentences(text))), RepRatio(text), SrcOverlap(text, [])) == 30.0
  {
    BlankHasNoWords(text);
    BlankHasNoSentences(text);
  }

  lemma {:induction false} BlankHasNoWords(text: string)
    requires forall i :: 0 <= i < |text| ==> IsSpace(text[i])
    ensures SplitWs(text) == []
    decreases |text|
  {
    if text != [] {
      BlankHasNoWords(text[1..]);
    }
  }

  lemma {:induction false} BlankHasNoSentences(text: string)
    requires forall i :: 0 <= i < |text| ==> IsSpace(text[i])
    ensures Sentences(text) == []
  {
    BlankRuns(text);
  }

  lemma {:induction false} BlankRuns(text: string)
    requires forall i :: 0 <= i < |text| ==> IsSpace(text[i])
    ensures StrippedNonEmpty(Runs(text, IsNotSentenceEnd)) == []
    decreases |text|
  {
    if text != [] {
      if !IsNotSentenceEnd(text[0]) {
        BlankRuns(text[1..]);
      } else {
        var n := Span(text, IsNotSentenceEnd);
        var piece := text[..n];
        BlankStrip(piece);
        BlankRuns(text[n..]);
        var rs := Runs(text, IsNotSentenceEnd);
        assert rs == [piece] + Runs(text[n..], IsNotSentenceEnd);
        assert rs[1..] == Runs(text[n..], IsNotSentenceEnd);
      }
    }
  }

  lemma BlankStrip(s: string)
    requires forall i :: 0 <= i < |s| ==> IsSpace(s[i])
    ensures Strip(s) == []
  {
    SpanIs(s, IsSpace, |s|);
    assert s[|s|..] == [];
  }
}
