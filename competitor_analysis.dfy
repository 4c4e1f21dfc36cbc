/**
 * Competitor analysis: the keyword frequencies of competing articles, and
 * the (always empty) list of content gaps.
 */
module CompetitorAnalysis {
  import opened Text
  import opened Collections

  // ----- tokens -----

  /** The class `[ء-يA-Za-z0-9]`: the Arabic letters U+0621..U+064A, ASCII letters and ASCII digits. */
  predicate IsTokenChar(c: char) {
    ('\U{621}' <= c <= '\U{64a}') || IsAsciiLetter(c) || IsAsciiDigit(c)
  }

  /** The runs that are at least three characters long, in order. */
  function LongRuns(rs: seq<string>): (r: seq<string>)
    ensures |r| <= |rs|
    decreases |rs|
  {
    if rs == [] then []
    else
      var n := |rs| - 1;
      LongRuns(rs[..n]) + (if |rs[n]| >= 3 then [rs[n]] else [])
  }

  /** The long runs are exactly the runs of three characters or more. */
  lemma {:induction false} LongRunsMembers(rs: seq<string>)
    ensures forall k :: 0 <= k < |LongRuns(rs)| ==> |LongRuns(rs)[k]| >= 3 && LongRuns(rs)[k] in rs
    ensures forall k :: 0 <= k < |rs| && |rs[k]| >= 3 ==> rs[k] in LongRuns(rs)
    decreases |rs|
  {
    if rs != [] {
      var n := |rs| - 1;
      LongRunsMembers(rs[..n]);
      assert forall k :: 0 <= k < n ==> rs[..n][k] == rs[k];
      assert rs == rs[..n] + [rs[n]];
    }
  }

  lemma {:induction false} LongRunsAppend(a: seq<string>, b: seq<string>)
    ensures LongRuns(a + b) == LongRuns(a) + LongRuns(b)
    decreases |b|
  {
    if b == [] {
      assert a + b == a;
    } else {
      var n := |b| - 1;
      var last := if |b[n]| >= 3 then [b[n]] else [];
      assert (a + b)[..|a| + n] == a + b[..n];
      assert LongRuns(a + b) == LongRuns(a + b[..n]) + last;
      LongRunsAppend(a, b[..n]);
    }
  }

  /**
   * `re.findall(r"[ء-يA-Za-z0-9]{3,}", t)`: the greedy matcher takes every
   * maximal run of class characters whole, and a run shorter than three
   * cannot match at all.
   */
  function Tokens(t: string): (r: seq<string>)
    ensures forall k :: 0 <= k < |r| ==> |r[k]| >= 3
    ensures forall k, i :: 0 <= k < |r| && 0 <= i < |r[k]| ==> IsTokenChar(r[k][i])
  {
    var rs := Runs(t, IsTokenChar);
    var r := LongRuns(rs);
    LongRunsMembers(rs);
    r
  }

  /** A character outside the class separates the tokens before it from those after it. */
  lemma TokensSplitAt(a: string, c: char, b: string)
    requires !IsTokenChar(c)
    ensures Tokens(a + [c] + b) == Tokens(a) + Tokens(b)
  {
    RunsSplitAt(a, c, b, IsTokenChar);
    LongRunsAppend(Runs(a, IsTokenChar), Runs(b, IsTokenChar));
  }

  /** A single run of class characters is one token when it has three or more characters, and none otherwise. */
  lemma TokensOfOneRun(t: string)
    requires t != [] && forall i :: 0 <= i < |t| ==> IsTokenChar(t[i])
    ensures Tokens(t) == if |t| >= 3 then [t] else []
  {
    assert IsTokenChar(t[0]);
    SpanIs(t, IsTokenChar, |t|);
    assert t[..|t|] == t;
    assert Runs(t[|t|..], IsTokenChar) == [] by { assert t[|t|..] == []; }
    assert Runs(t, IsTokenChar) == [t];
    assert [t][..0] == [];
  }

  // ----- analyze_competitors -----

  /** The `words` list after the loop: every text's tokens, lowered, text by text. */
  function WordsOf(texts: seq<string>): (r: seq<string>)
    decreases |texts|
  {
    if texts == [] then [] else WordsOf(texts[..|texts| - 1]) + LowerAll(Tokens(texts[|texts| - 1]))
  }

  /** Every word has at least three characters and no ASCII capital. */
  lemma {:induction false} WordsAreLowered(texts: seq<string>)
    ensures forall k :: 0 <= k < |WordsOf(texts)| ==> |WordsOf(texts)[k]| >= 3 && !HasCapital(WordsOf(texts)[k])
    decreases |texts|
  {
    if texts != [] {
      var n := |texts| - 1;
      WordsAreLowered(texts[..n]);
      var l := LowerAll(Tokens(texts[n]));
      forall k | 0 <= k < |l| ensures |l[k]| >= 3 && !HasCapital(l[k]) {
        assert l[k] == Lower(Tokens(texts[n])[k]);
      }
    }
  }

  predicate HasCapital(w: string) {
    exists i :: 0 <= i < |w| && IsAsciiUpper(w[i])
  }

  /** `str.isdigit()` on a token: non-empty and all ASCII digits (the only digits the token class admits). */
  predicate IsDigitWord(w: string) {
    w != [] && forall i :: 0 <= i < |w| ==> IsAsciiDigit(w[i])
  }

  /** `[w for (w, c) in common if not w.isdigit()]`. */
  function NonDigitKeys(common: seq<(string, nat)>): (r: seq<string>)
    ensures |r| <= |common|
    ensures forall i :: 0 <= i < |r| ==> !IsDigitWord(r[i])
    decreases |common|
  {
    if common == [] then []
    else
      var n := |common| - 1;
      NonDigitKeys(common[..n]) + (if IsDigitWord(common[n].0) then [] else [common[n].0])
  }

  /** The position of the entry the `i`-th kept key comes from. */
  function KeptFrom(common: seq<(string, nat)>, i: nat): (k: nat)
    requires i < |NonDigitKeys(common)|
    ensures k < |common| && common[k].0 == NonDigitKeys(common)[i]
    decreases |common|
  {
    var n := |common| - 1;
    if i < |NonDigitKeys(common[..n])| then KeptFrom(common[..n], i) else n
  }

  /** Kept keys come from the entries in order. */
  lemma {:induction false} KeptFromIncreasing(common: seq<(string, nat)>, i: nat, j: nat)
    requires i < j < |NonDigitKeys(common)|
    ensures KeptFrom(common, i) < KeptFrom(common, j)
    decreases |common|
  {
    var n := |common| - 1;
    if j < |NonDigitKeys(common[..n])| {
      KeptFromIncreasing(common[..n], i, j);
    }
  }

  /** The keywords: the non-digit keys among the twenty most common words, at most fifteen. */
  function Keywords(words: seq<string>): (r: seq<string>)
    ensures |r| <= 15
    ensures forall i :: 0 <= i < |r| ==> !IsDigitWord(r[i])
  {
    Take(NonDigitKeys(MostCommon(words, 20)), 15)
  }

  /** Every keyword is a word, and earlier keywords are at least as frequent as later ones. */
  lemma KeywordsByFrequency(words: seq<string>, i: nat, j: nat)
    requires i < j < |Keywords(words)|
    ensures Keywords(words)[i] in words && Keywords(words)[j] in words
    ensures multiset(words)[Keywords(words)[i]] >= multiset(words)[Keywords(words)[j]]
  {
    var common := MostCommon(words, 20);
    var keys := NonDigitKeys(common);
    assert Keywords(words)[i] == keys[i] && Keywords(words)[j] == keys[j];
    var m, k := KeptFrom(common, i), KeptFrom(common, j);
    KeptFromIncreasing(common, i, j);
    MostCommonShape(words, 20);
    MostCommonEntry(words, 20, k);
    MostCommonEntry(words, 20, m);
  }

  /**
   * The keywords come from the twenty most common words: each is one of
   * them, and no word left out of them occurs more often than a keyword.
   */
  lemma KeywordsAreMostCommon(words: seq<string>, i: nat)
    requires i < |Keywords(words)|
    ensures HasKey(MostCommon(words, 20), Keywords(words)[i])
    ensures forall w :: w in words && !HasKey(MostCommon(words, 20), w) ==> multiset(words)[w] <= multiset(words)[Keywords(words)[i]]
  {
    var common := MostCommon(words, 20);
    var keys := NonDigitKeys(common);
    assert Keywords(words)[i] == keys[i];
    var k := KeptFrom(common, i);
    MostCommonEntry(words, 20, k);
    forall w | w in words && !HasKey(common, w) ensures multiset(words)[w] <= multiset(words)[keys[i]] {
      MostCommonTop(words, 20, w);
    }
  }

  /** A word that is most common by itself and not made of digits is the first keyword. */
  lemma SingleWordIsKeyword(words: seq<string>, w: string)
    requires words != [] && !IsDigitWord(w)
    requires forall i :: 0 <= i < |words| ==> words[i] == w
    ensures Keywords(words) == [w]
  {
    TallyOfOneKey(words, w);
    assert SortByRank([(w, |words|)], NoTiebreak) == [(w, |words|)];
    assert MostCommon(words, 20) == [(w, |words|)];
    assert [(w, |words|)][..0] == [];
  }

  const SUMMARY := "basic keyword frequency"

  datatype Analysis = Analysis(summary: string, keywords: seq<string>, gaps: Option<seq<string>>)

  /** The dictionary `analyze_competitors` returns; a missing "gaps" key is `None`. */
  function AnalysisOf(texts: seq<string>): (a: Analysis)
    ensures |a.keywords| <= 15 && a.gaps == Some([])
  {
    Analysis(SUMMARY, Keywords(WordsOf(texts)), Some([]))
  }

  /** `analyze_competitors`: the loop that extends `words` text by text, then the counting. */
  method AnalyzeCompetitors(texts: seq<string>) returns (a: Analysis)
    ensures a == AnalysisOf(texts)
  {
    var words: seq<string> := [];
    for i := 0 to |texts|
      invariant words == WordsOf(texts[..i])
    {
      assert texts[..i + 1][..i] == texts[..i];
      words := words + LowerAll(Tokens(texts[i]));
    }
    assert texts[..|texts|] == texts;
    a := Analysis(SUMMARY, Keywords(words), Some([]));
  }

  /** `extract_gap`: the analysis' gaps, or nothing when it has none. */
  function ExtractGap(a: Analysis): (r: seq<string>)
    ensures a.gaps.None? ==> r == []
    ensures a.gaps.Some? ==> r == a.gaps.value
  {
    match a.gaps
    case Some(g) => g
    case None => []
  }

  /** The gaps of any competitor analysis are empty. */
  lemma NoGapsYet(texts: seq<string>)
    ensures ExtractGap(AnalysisOf(texts)) == []
  {
  }
}
