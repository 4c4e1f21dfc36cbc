/**
 * The rule-based article quality analyser (utils/quality_checks.py): segmentation
 * into words, sentences and paragraphs, structural and lexical statistics,
 * n-gram repetition, keyword signals, a composite "human style" score and the
 * ordered list of writing tips.
 *
 * Regular-expression searches are not modelled: the analyser receives the
 * engine as a function `finditer(pattern, text)` giving the spans of the
 * non-overlapping matches in order, and everything around those matches is.
 */
module QualityChecks {
  import opened Text
  import opened Collections
  import opened Stats

  // ----- lexicons -----

  /** Arabic stopwords dropped before n-grams are counted (`AR_STOPWORDS`). */
  const STOPWORDS: set<string> := {
    "في", "من", "على", "إلى", "عن", "مع", "حتى", "ثم",
    "أو", "أم", "بل", "لا", "لن", "لم", "إن", "أن",
    "كان", "تكون", "يكون", "قد", "قدّ", "هل", "ما", "ليس",
    "ليسوا", "التي", "الذي", "الذين", "هذا", "هذه", "ذلك", "تلك",
    "هناك", "هنا", "جدا", "فقط", "دون", "حسب", "عبر", "لدى",
    "حيث", "كما", "كذلك", "بين", "ضمن", "وراء", "أمام", "قبل",
    "بعد", "منذ", "طوال", "خلال", "ضد", "عند", "نحو", "سوى",
    "غير", "مثل", "مثلما", "لأن", "إذ", "إذا", "لكن", "لكي",
    "كي", "إلا", "بما", "أنَّ", "أنّ", "إنَّ", "إنما", "بينما",
    "عندما", "حين", "إذن", "إذًا", "إذْ", "ربما", "تقريبًا", "غالبًا",
    "نوعًا"
  }

  /** Sensory-description lexicon (`SENSORY_TERMS`). */
  const SENSORY_TERMS: set<string> := {
    "قوام", "رائحة", "نكهة", "طازج", "طزاجة", "حار", "سخن", "بارد",
    "دسم", "مقرمش", "طري", "متماسك", "حلو", "مالح", "حامض", "متوازن",
    "مدخن", "محمّر", "مشوي", "مطبوخ", "مطهّي", "ناعم", "خشن", "زبدة",
    "زبدي", "كريمي", "سائل", "كثيف", "عطري", "عبق", "عطر", "غني",
    "خفيف", "صلب", "طراوة"
  }

  /** Positive-sentiment lexicon (`POSITIVE_TERMS`). */
  const POSITIVE_TERMS: set<string> := {
    "لذيذ", "ممتاز", "رائع", "متقن", "متوازن", "جميل", "مميز", "مدهش",
    "نظيف", "سريع", "لطيف", "ودود", "محترف", "هادئ", "مريح", "سلس",
    "مثالي", "طيب", "فخم"
  }

  /** Negative-sentiment lexicon (`NEGATIVE_TERMS`); its two-word entries were split into single words by `.split()`. */
  const NEGATIVE_TERMS: set<string> := {
    "سيئ", "ضعيف", "بارد", "قاسٍ", "جاف", "مزعج", "مزدحم", "بطيء",
    "متأخر", "فوضوي", "مرّ", "مالح", "جدًا", "حامض", "مبالغ", "فيه",
    "مرتفع", "السعر", "بلا", "نَكهة", "نكهةٍ", "طعم", "ثقيل", "زيتي",
    "دسم", "غير", "متوازن", "مستوي", "ناقص"
  }

  /**
   * Over-claiming words (`ABSOLUTE_WORDS`). The source writes multi-word entries with `_`
   * and then turns `_` into a space before `.split()`, so each of their words is an entry.
   */
  const ABSOLUTE_WORDS: set<string> := {
    "دائمًا", "أبدًا", "كلّ", "جميع", "حتمًا", "مؤكد", "بلا", "شك",
    "منافس", "الأفضل", "رقم", "1", "لا", "يقارن", "يُهزم"
  }

  // ----- regular expressions -----

  /** `m.span()` of a match: its start and end offsets in the searched text. */
  datatype MatchSpan = MatchSpan(start: nat, end: nat)

  /**
   * The regular-expression engine, which the model does not implement:
   * `finditer(pattern, text)` lists the spans of the non-overlapping matches of
   * `pattern` in `text`, left to right, as `re.finditer` yields them. A search
   * made with `re.IGNORECASE` passes the pattern behind the inline flag "(?i)".
   */
  type Regex = (string, string) -> seq<MatchSpan>

  function IgnoreCase(pattern: string): string { "(?i)" + pattern }

  /** `re.search(pattern, text)` finds something. */
  predicate Found(finditer: Regex, pattern: string, text: string) {
    finditer(pattern, text) != []
  }

  /** `1 if re.search(pattern, text) else 0`. */
  function Flag(finditer: Regex, pattern: string, text: string): nat {
    if Found(finditer, pattern, text) then 1 else 0
  }

  /** `BOILERPLATE_PATTERNS`, searched with `re.IGNORECASE`. */
  const BOILERPLATE_PATTERNS: seq<string> := [
    @"من\s+أجمل\s+.*مطاعم",
    @"لا\s+تفوت\s+.*تجربة",
    @"يقدم\s+.*قائمة\s+متنوعة\s+.*",
    @"الخيار\s+الأفضل\s+.*",
    @"يعتبر\s+.*من\s+أفضل\s+الخيارات",
    @"يتميز\s+.*بالجودة\s+العالية",
    @"أسعار\s+مناسبة\s+.*لجميع"
  ]

  /** Approximate passive voice: "تم" followed by a word. */
  const PASSIVE_PATTERN: string := @"\bتم\s+\w+"

  /** A level-2 markdown heading at the start of a line. */
  const H2_PATTERN: string := @"(?m)^\s*##\s+"

  /** A level-3 markdown heading at the start of a line. */
  const H3_PATTERN: string := @"(?m)^\s*###\s+"

  /** An FAQ section heading, or "FAQ" anywhere. */
  const FAQ_PATTERN: string := @"(?im)^\s*##\s*أسئلة\s+شائعة|FAQ"

  /** E-E-A-T: first-hand experience words. */
  const EXPERIENCE_PATTERN: string := @"\b(جرّبت|زرنا|تذوّقنا|زيارة|تجربت|من واقع الخبرة)\b"

  /** E-E-A-T: expertise words. */
  const EXPERTISE_PATTERN: string := @"\b(تقنية|تحميص|تتبيل|درجات التسوية|معيار|منهجية|قرينة)\b"

  /** E-E-A-T: authorship words. */
  const AUTHOR_PATTERN: string := @"\b(كاتب|محرر|فريق التحرير|توقيع|منهجية التحرير)\b"

  /** E-E-A-T: trust and transparency words. */
  const TRUST_PATTERN: string := @"\b(شفافية|مصدر|إفصاح|حدود المنهجية|اعتمدنا)\b"

  /** The five information-gain searches; only the first is case-insensitive. */
  const INFO_GAIN_PATTERNS: seq<string> := [
    IgnoreCase(@"Pro Tip|نصيحة|تلميح|ملاحظة عملية"),
    @"مقارنة|أقرب\s+إلى|يشبه|يفوق|أقل",
    @"سلبية\s+صغيرة|نقطة\s+لِلتحسين|يمكن\s+تحسين|ملاحظة\s+سلبية",
    @"(شمال|جنوب|شرق|غرب|كورنيش|مول|ممشى|حي)\s",
    @"تجربة\s+.*(سابقة|أخرى)"
  ]

  /**
   * None of the searches the analyser makes finds anything in the empty text.
   * No pattern above can match the empty string, so a faithful engine meets this.
   */
  ghost predicate NoMatchInEmptyText(finditer: Regex) {
    && (forall k :: 0 <= k < |BOILERPLATE_PATTERNS| ==> finditer(IgnoreCase(BOILERPLATE_PATTERNS[k]), "") == [])
    && (forall k :: 0 <= k < |INFO_GAIN_PATTERNS| ==> finditer(INFO_GAIN_PATTERNS[k], "") == [])
    && finditer(PASSIVE_PATTERN, "") == []
    && finditer(H2_PATTERN, "") == [] && finditer(H3_PATTERN, "") == [] && finditer(FAQ_PATTERN, "") == []
    && finditer(EXPERIENCE_PATTERN, "") == [] && finditer(EXPERTISE_PATTERN, "") == []
    && finditer(AUTHOR_PATTERN, "") == [] && finditer(TRUST_PATTERN, "") == []
  }

  // ----- segmentation -----

  /** `re.sub(r"\s+", " ", s)`: every whitespace run becomes a single space. */
  function CollapseSpaces(s: string): (r: string)
    ensures forall i :: 0 <= i < |r| && IsSpace(r[i]) ==> r[i] == ' '
    ensures forall i :: 0 < i < |r| && r[i] == ' ' ==> r[i - 1] != ' '
    ensures s != [] && !IsSpace(s[0]) ==> r != [] && r[0] == s[0]
    ensures s != [] && !IsSpace(s[|s| - 1]) ==> r != [] && r[|r| - 1] == s[|s| - 1]
    decreases |s|
  {
    if s == [] then []
    else if IsSpace(s[0]) then
      var n := Span(s, IsSpace);
      [' '] + CollapseSpaces(s[n..])
    else
      [s[0]] + CollapseSpaces(s[1..])
  }

  /**
   * `_normalize`: the stripped text with every whitespace run, line breaks
   * included, turned into one space. No line break survives it.
   */
  function Normalize(s: string): (r: string)
    ensures forall i :: 0 <= i < |r| ==> r[i] != '\n'
    ensures forall i :: 0 <= i < |r| && IsSpace(r[i]) ==> r[i] == ' '
    ensures forall i :: 0 < i < |r| && r[i] == ' ' ==> r[i - 1] != ' '
    ensures r == [] || (!IsSpace(r[0]) && !IsSpace(r[|r| - 1]))
    ensures s == [] ==> r == []
  {
    CollapseSpaces(Strip(s))
  }

  /** The terminators of the sentence splitter's look-behind, `[\.\!\؟\!]`. */
  predicate IsTerminator(c: char) { c == '.' || c == '!' || c == '؟' }

  /**
   * The next match of `(?<=[.!؟])\s+|\n+` at or after `i`, as (start, end):
   * a whitespace run right after a terminator, or else a run of newlines;
   * `(|t|, |t|)` when there is none. Splitting resumes on the rest of the text
   * with no look-behind character, which changes nothing: the character before
   * the resumption point ends the previous match and is never a terminator.
   */
  function SentenceBreak(t: string, i: nat): (b: (nat, nat))
    requires i <= |t|
    ensures i <= b.0 <= b.1 <= |t|
    ensures b.0 < |t| <==> b.0 < b.1
    decreases |t| - i
  {
    if i == |t| then (|t|, |t|)
    else if i > 0 && IsTerminator(t[i - 1]) && IsSpace(t[i]) then (i, i + Span(t[i..], IsSpace))
    else if t[i] == '\n' then (i, i + Span(t[i..], c => c == '\n'))
    else SentenceBreak(t, i + 1)
  }

  /** The next match of the look-behind alternative `(?<=[.!؟])\s+` alone. */
  function TerminatorBreak(t: string, i: nat): (b: (nat, nat))
    requires i <= |t|
    ensures i <= b.0 <= b.1 <= |t|
    ensures b.0 < |t| ==> b.0 > 0 && IsTerminator(t[b.0 - 1]) && IsSpace(t[b.0])
    ensures forall k :: i <= k < b.0 && k > 0 ==> !(IsTerminator(t[k - 1]) && IsSpace(t[k]))
    decreases |t| - i
  {
    if i == |t| then (|t|, |t|)
    else if i > 0 && IsTerminator(t[i - 1]) && IsSpace(t[i]) then (i, i + Span(t[i..], IsSpace))
    else TerminatorBreak(t, i + 1)
  }

  /** `re.split(r"(?<=[.!؟])\s+|\n+", t)`: the pieces between successive matches. */
  function SplitAtSentenceBreaks(t: string): (parts: seq<string>)
    ensures parts != []
    decreases |t|
  {
    var b := SentenceBreak(t, 0);
    if b.0 == |t| then [t] else [t[..b.0]] + SplitAtSentenceBreaks(t[b.1..])
  }

  /** `_split_sentences`: the stripped, non-empty pieces of the normalised text. */
  function Sentences(text: string): (r: seq<string>)
    ensures forall k :: 0 <= k < |r| ==> r[k] != []
    ensures text == [] ==> r == []
  {
    StrippedNonEmpty(SplitAtSentenceBreaks(Normalize(text)))
  }

  lemma {:induction false} BreaksAgreeWithoutNewlines(t: string, i: nat)
    requires i <= |t|
    requires forall k :: 0 <= k < |t| ==> t[k] != '\n'
    ensures SentenceBreak(t, i) == TerminatorBreak(t, i)
    decreases |t| - i
  {
    if i < |t| && !(i > 0 && IsTerminator(t[i - 1]) && IsSpace(t[i])) {
      BreaksAgreeWithoutNewlines(t, i + 1);
    }
  }

  /**
   * Normalisation removes every line break, so the `\n+` alternative of the
   * sentence splitter never matches: sentences end only at a terminator
   * followed by whitespace.
   */
  lemma NewlineBranchNeverFires(text: string, i: nat)
    requires i <= |Normalize(text)|
    ensures SentenceBreak(Normalize(text), i) == TerminatorBreak(Normalize(text), i)
  {
    BreaksAgreeWithoutNewlines(Normalize(text), i);
  }

  lemma StripOfStripped(s: string)
    requires s != [] && !IsSpace(s[0]) && !IsSpace(s[|s| - 1])
    ensures Strip(s) == s
  {
    assert Span(s, IsSpace) == 0;
    assert TrimLeft(s, IsSpace) == s;
  }

  /** A text with no terminator followed by whitespace is a single sentence: its normalised form. */
  lemma {:induction false} OneSentenceWithoutTerminators(text: string)
    requires Normalize(text) != []
    requires forall k :: 0 < k < |Normalize(text)| ==> !(IsTerminator(Normalize(text)[k - 1]) && IsSpace(Normalize(text)[k]))
    ensures Sentences(text) == [Normalize(text)]
  {
    var t := Normalize(text);
    NewlineBranchNeverFires(text, 0);
    assert SentenceBreak(t, 0).0 == |t|;
    assert SplitAtSentenceBreaks(t) == [t];
    StripOfStripped(t);
    assert StrippedNonEmpty([t]) == [t] + StrippedNonEmpty([]);
  }

  /** The last newline in `t[lo..hi]`, or -1 when there is none. */
  function LastNewline(t: string, lo: nat, hi: nat): (q: int)
    requires lo <= hi <= |t|
    ensures q == -1 || (lo <= q < hi && t[q] == '\n')
    ensures q == -1 ==> forall k :: lo <= k < hi ==> t[k] != '\n'
    decreases hi - lo
  {
    if lo == hi then -1
    else if t[hi - 1] == '\n' then hi - 1
    else LastNewline(t, lo, hi - 1)
  }

  /**
   * The next match of `\n\s*\n` at or after `i`, as (start, end). At a newline,
   * `\s*` takes the whole whitespace run that follows and gives characters
   * back until a newline comes next, so the match ends after the run's last
   * newline; a newline with no other newline in the run after it does not match.
   */
  function ParagraphBreak(t: string, i: nat): (b: (nat, nat))
    requires i <= |t|
    ensures i <= b.0 <= b.1 <= |t|
    ensures b.0 < |t| <==> b.0 < b.1
    ensures b.0 < |t| ==> b.0 + 2 <= b.1 && t[b.0] == '\n' && t[b.1 - 1] == '\n'
    decreases |t| - i
  {
    if i == |t| then (|t|, |t|)
    else if t[i] == '\n' then
      var e := i + 1 + Span(t[i + 1..], IsSpace);
      var q := LastNewline(t, i + 1, e);
      if q >= 0 then (i, q + 1) else ParagraphBreak(t, i + 1)
    else ParagraphBreak(t, i + 1)
  }

  /** `re.split(r"\n\s*\n", t)`. */
  function SplitAtParagraphBreaks(t: string): (parts: seq<string>)
    ensures parts != []
    decreases |t|
  {
    var b := ParagraphBreak(t, 0);
    if b.0 == |t| then [t] else [t[..b.0]] + SplitAtParagraphBreaks(t[b.1..])
  }

  /** `_split_paragraphs`: the stripped, non-empty pieces of the raw text between blank lines. */
  function Paragraphs(text: string): (r: seq<string>)
    ensures forall k :: 0 <= k < |r| ==> r[k] != []
    ensures text == [] ==> r == []
  {
    StrippedNonEmpty(SplitAtParagraphBreaks(text))
  }

  lemma {:induction false} NoParagraphBreakWithoutNewlines(t: string, i: nat)
    requires i <= |t|
    requires forall k :: 0 <= k < |t| ==> t[k] != '\n'
    ensures ParagraphBreak(t, i) == (|t|, |t|)
    decreases |t| - i
  {
    if i < |t| {
      NoParagraphBreakWithoutNewlines(t, i + 1);
    }
  }

  /** A text on one line is one paragraph, its stripped self, or none when it is blank. */
  lemma OneParagraphWithoutNewlines(text: string)
    requires forall k :: 0 <= k < |text| ==> text[k] != '\n'
    ensures Paragraphs(text) == if Strip(text) == [] then [] else [Strip(text)]
  {
    NoParagraphBreakWithoutNewlines(text, 0);
    assert SplitAtParagraphBreaks(text) == [text];
    assert StrippedNonEmpty([text]) == (if Strip(text) == [] then [] else [Strip(text)]) + StrippedNonEmpty([]);
  }

  /** The token characters of `_words`: `[A-Za-z0-9؀-ۿ]`. */
  predicate IsWordChar(c: char) {
    IsAsciiUpper(c) || IsAsciiLower(c) || IsAsciiDigit(c) || IsArabicBlock(c)
  }

  /** `_words`: the maximal runs of token characters in the normalised text. */
  function Words(text: string): (r: seq<string>)
    ensures forall k :: 0 <= k < |r| ==> r[k] != []
    ensures forall k, i :: 0 <= k < |r| && 0 <= i < |r[k]| ==> IsWordChar(r[k][i])
    ensures text == [] ==> r == []
  {
    Runs(Normalize(text), IsWordChar)
  }

  // ----- small numeric helpers -----

  /** `_ttr`: distinct lowercased tokens over tokens, 0 for no tokens. */
  function Ttr(words: seq<string>): (r: real)
    ensures words == [] ==> r == 0.0
    ensures words != [] ==> 0.0 < r <= 1.0
  {
    if words == [] then 0.0
    else
      RatioInUnitInterval(|Elements(LowerAll(words))|, |words|);
      |Elements(LowerAll(words))| as real / |words| as real
  }

  /** The type-token ratio is 1 exactly when no token repeats, ignoring case. */
  lemma TtrIsOneIffNoRepeats(words: seq<string>)
    requires words != []
    ensures Ttr(words) == 1.0 <==> Distinct(LowerAll(words))
  {
    ElementsCountDistinct(LowerAll(words));
    RatioIsOne(|Elements(LowerAll(words))|, |words|);
  }

  /** The windows of `tokens[1..]` are the windows of `tokens` from the second on. */
  lemma NgramsShift(tokens: seq<string>, n: nat, rest: seq<string>)
    requires tokens != [] && |rest| + n <= |tokens|
    requires forall i :: 0 <= i < |rest| ==> rest[i] == Join(" ", tokens[1..][i..i + n])
    ensures forall i :: 0 <= i < |rest| ==> rest[i] == Join(" ", tokens[i + 1..i + 1 + n])
  {
    forall i | 0 <= i < |rest|
      ensures rest[i] == Join(" ", tokens[i + 1..i + 1 + n])
    {
      assert tokens[1..][i..i + n] == tokens[i + 1..i + 1 + n];
    }
  }

  /** `_ngrams`: the windows of `n` consecutive tokens, each joined by single spaces. */
  function Ngrams(tokens: seq<string>, n: nat): (r: seq<string>)
    ensures |r| == if |tokens| + 1 >= n then |tokens| + 1 - n else 0
    ensures forall i :: 0 <= i < |r| ==> r[i] == Join(" ", tokens[i..i + n])
    decreases |tokens|
  {
    if |tokens| < n then []
    else if tokens == [] then [""]
    else
      var rest := Ngrams(tokens[1..], n);
      NgramsShift(tokens, n, rest);
      [Join(" ", tokens[..n])] + rest
  }

  /** `a / b` lies in (0, 1] when `0 < a <= b`. */
  lemma RatioInUnitInterval(a: nat, b: nat)
    requires 0 < a <= b
    ensures 0.0 < a as real / b as real <= 1.0
  {
    var x := a as real / b as real;
    assert x * (b as real) == a as real;
  }

  lemma RatioIsOne(a: nat, b: nat)
    requires b > 0
    ensures a as real / b as real == 1.0 <==> a == b
  {
    var x := a as real / b as real;
    assert x * (b as real) == a as real;
  }

  /** `_clip`: `max(lo, min(hi, x))`. */
  function Clip(x: real, lo: real, hi: real): (r: real)
    ensures lo <= hi ==> lo <= r <= hi
    ensures lo <= x <= hi ==> r == x
    ensures x <= lo ==> r == lo
    ensures lo <= hi <= x ==> r == hi
  {
    var m := if x < hi then x else hi;
    if m > lo then m else lo
  }

  lemma ClipMonotone(x: real, y: real, lo: real, hi: real)
    requires x <= y
    ensures Clip(x, lo, hi) <= Clip(y, lo, hi)
  {
  }

  /** `_percent`: `100 * x / total`, or 0 when the total is 0. */
  function Percent(x: nat, total: nat): (p: real)
    ensures total == 0 ==> p == 0.0
    ensures total > 0 ==> p * (total as real) == 100.0 * (x as real)
    ensures p >= 0.0
    ensures x <= total ==> p <= 100.0
  {
    if total == 0 then 0.0 else 100.0 * (x as real) / (total as real)
  }

  /** Percentages of the same total add up. */
  lemma PercentAdds(a: nat, b: nat, total: nat)
    ensures Percent(a, total) + Percent(b, total) == Percent(a + b, total)
  {
    if total > 0 {
      var t := total as real;
      assert 100.0 * (a as real) / t + 100.0 * (b as real) / t == (100.0 * (a as real) + 100.0 * (b as real)) / t;
      assert 100.0 * (a as real) + 100.0 * (b as real) == 100.0 * ((a + b) as real);
    }
  }

  /** `max(1, n)`. */
  function AtLeastOne(n: nat): (r: nat)
    ensures r >= 1 && r >= n
  {
    if n < 1 then 1 else n
  }

  /** Characters of context kept on each side of a match by `_extract_excerpt`. */
  const PAD: nat := 28

  /**
   * `_extract_excerpt`: the match widened by `PAD` characters on each side
   * (clamped to the text), with newlines turned into spaces.
   */
  function ExtractExcerpt(text: string, span: MatchSpan): (r: string)
    ensures forall i :: 0 <= i < |r| ==> r[i] != '\n'
    ensures span.start <= span.end ==> |r| <= (span.end - span.start) + 2 * PAD
    ensures var lo := if span.start < PAD then 0 else span.start - PAD;
            var hi := if span.end + PAD < |text| then span.end + PAD else |text|;
            lo <= hi ==> (|r| == hi - lo
              && forall i :: 0 <= i < |r| ==> r[i] == (if text[lo + i] == '\n' then ' ' else text[lo + i]))
  {
    var lo := if span.start < PAD then 0 else span.start - PAD;
    ReplaceChar(Slice(text, lo, span.end + PAD), '\n', ' ')
  }

  // ----- structure -----

  /** `[len(_words(p)) for p in parts]`. */
  function WordCounts(parts: seq<string>): (r: seq<nat>)
    ensures |r| == |parts|
    ensures forall i :: 0 <= i < |parts| ==> r[i] == |Words(parts[i])|
  {
    seq(|parts|, i requires 0 <= i < |parts| => |Words(parts[i])|)
  }

  /** `lens or [0]`. */
  function OrZero(lens: seq<nat>): (r: seq<nat>)
    ensures r != []
    ensures lens != [] ==> r == lens
  {
    if lens == [] then [0] else lens
  }

  /** How many of `xs` are below `bound`. */
  function CountBelow(xs: seq<nat>, bound: nat): (n: nat)
    ensures n <= |xs|
    decreases |xs|
  {
    if xs == [] then 0 else CountBelow(xs[1..], bound) + (if xs[0] < bound then 1 else 0)
  }

  /** How many of `xs` are above `bound`. */
  function CountAbove(xs: seq<nat>, bound: nat): (n: nat)
    ensures n <= |xs|
    decreases |xs|
  {
    if xs == [] then 0 else CountAbove(xs[1..], bound) + (if xs[0] > bound then 1 else 0)
  }

  /** `paragraph_metrics`, with the variance in place of its square root `std_len`. */
  datatype ParagraphMetrics = ParagraphMetrics(avgLen: real, varLen: real, pctShortLt20w: real, pctLongGt100w: real)

  function ParagraphMetricsOf(paraLens: seq<nat>): (m: ParagraphMetrics)
    requires paraLens != []
    ensures m.avgLen >= 0.0 && m.varLen >= 0.0
    ensures 0.0 <= m.pctShortLt20w <= 100.0 && 0.0 <= m.pctLongGt100w <= 100.0
    ensures m.pctShortLt20w + m.pctLongGt100w <= 100.0
  {
    var short := CountBelow(paraLens, 20);
    var long := CountAbove(paraLens, 100);
    ShortAndLongDisjoint(paraLens);
    PercentAdds(short, long, |paraLens|);
    ParagraphMetrics(Mean(paraLens), Variance(paraLens), Percent(short, |paraLens|), Percent(long, |paraLens|))
  }

  /** No paragraph is both short and long. */
  lemma {:induction false} ShortAndLongDisjoint(xs: seq<nat>)
    ensures CountBelow(xs, 20) + CountAbove(xs, 100) <= |xs|
    decreases |xs|
  {
    if xs != [] {
      ShortAndLongDisjoint(xs[1..]);
    }
  }

  // ----- sentence openings -----

  /** The lowercased first token of every sentence that has a token, in order. */
  function StartsOf(sentences: seq<string>): (r: seq<string>)
    ensures |r| <= |sentences|
    decreases |sentences|
  {
    if sentences == [] then []
    else
      var toks := Words(sentences[|sentences| - 1]);
      StartsOf(sentences[..|sentences| - 1]) + (if toks == [] then [] else [Lower(toks[0])])
  }

  /** The loop collecting `starts`. */
  method SentenceStarts(sentences: seq<string>) returns (starts: seq<string>)
    ensures starts == StartsOf(sentences)
  {
    starts := [];
    for i := 0 to |sentences|
      invariant starts == StartsOf(sentences[..i])
    {
      assert sentences[..i + 1][..i] == sentences[..i];
      var toks := Words(sentences[i]);
      if toks != [] {
        starts := starts + [Lower(toks[0])];
      }
    }
    assert sentences[..|sentences|] == sentences;
  }

  /** `sum((c / n) ** 2 for _, c in top)`. */
  function ShareSquares(top: seq<(string, nat)>, n: nat): (s: real)
    requires n > 0
    ensures s >= 0.0
    decreases |top|
  {
    if top == [] then 0.0
    else
      var x := top[0].1 as real / n as real;
      x * x + ShareSquares(top[1..], n)
  }

  /** Shares are at most 1, so a sum of squared shares is at most the summed share. */
  lemma {:induction false} ShareSquaresBound(top: seq<(string, nat)>, n: nat)
    requires n > 0 && SumCounts(top) <= n
    ensures ShareSquares(top, n) <= SumCounts(top) as real / n as real
    decreases |top|
  {
    if top != [] {
      var t := top[1..];
      ShareSquaresBound(t, n);
      ShareStep(top[0].1, SumCounts(t), n, ShareSquares(t, n), SumCounts(top), ShareSquares(top, n));
    }
  }

  /** One step of `ShareSquaresBound`: a squared share plus a tail bounded by its own summed share. */
  lemma ShareStep(c: nat, rest: nat, n: nat, tail: real, total: nat, sum: real)
    requires 0 < n && c + rest <= n && tail <= rest as real / n as real
    requires total == c + rest && sum == (c as real / n as real) * (c as real / n as real) + tail
    ensures sum <= total as real / n as real
  {
    SquaredShareAtMostShare(c, n);
    SharesAdd(c, rest, n);
    assert total as real / n as real == (c + rest) as real / n as real;
  }

  lemma SharesAdd(a: nat, b: nat, n: nat)
    requires n > 0
    ensures (a + b) as real / n as real == a as real / n as real + b as real / n as real
  {
  }

  lemma SquaredShareAtMostShare(c: nat, n: nat)
    requires 0 < n && c <= n
    ensures (c as real / n as real) * (c as real / n as real) <= c as real / n as real
  {
    var x := c as real / n as real;
    assert x * (n as real) == c as real;
    assert 0.0 <= x <= 1.0;
    assert x * x <= x * 1.0;
  }

  lemma ShareAtMostOne(c: nat, n: nat)
    requires 0 < n && c <= n
    ensures c as real / n as real <= 1.0
  {
  }

  /** A positive leading share keeps the sum of squared shares positive. */
  lemma LeadingShareIsPositive(c: nat, n: nat, tail: real)
    requires 0 < c && 0 < n && tail >= 0.0
    ensures (c as real / n as real) * (c as real / n as real) + tail > 0.0
  {
    var x := c as real / n as real;
    assert x > 0.0;
  }

  /** Shares whose counts total at most `n`, led by a positive one, have a squared sum in (0, 1]. */
  lemma HhiInUnitInterval(top: seq<(string, nat)>, n: nat)
    requires n > 0 && top != [] && top[0].1 >= 1 && SumCounts(top) <= n
    ensures 0.0 < ShareSquares(top, n) <= 1.0
  {
    LeadingShareIsPositive(top[0].1, n, ShareSquares(top[1..], n));
    ShareSquaresBound(top, n);
    ShareAtMostOne(SumCounts(top), n);
  }

  /** Dropping trailing entries can only lower the sum of squared shares. */
  lemma {:induction false} ShareSquaresOfPrefix(top: seq<(string, nat)>, k: nat, n: nat)
    requires n > 0 && k <= |top|
    ensures ShareSquares(top[..k], n) <= ShareSquares(top, n)
    decreases |top|
  {
    if k > 0 {
      assert top[..k][1..] == top[1..][..k - 1];
      ShareSquaresOfPrefix(top[1..], k - 1, n);
      var x := top[0].1 as real / n as real;
      SameHeadBound(ShareSquares(top[..k], n), ShareSquares(top, n), x * x,
                    ShareSquares(top[1..][..k - 1], n), ShareSquares(top[1..], n));
    }
  }

  lemma SameHeadBound(a: real, b: real, head: real, tailA: real, tailB: real)
    requires a == head + tailA && b == head + tailB && tailA <= tailB
    ensures a <= b
  {
  }

  /** Every distinct start with its count, most frequent first. */
  function RankedStarts(starts: seq<string>): seq<(string, nat)> {
    SortByRank(Tally(starts), NoTiebreak)
  }

  /**
   * `start_hhi`: the Herfindahl index of sentence openings, taken over only
   * the five most common ones; 0 when no sentence has a token, else in (0, 1].
   */
  function StartHhi(starts: seq<string>): (h: real)
    ensures starts == [] ==> h == 0.0
    ensures starts != [] ==> 0.0 < h <= 1.0
  {
    if starts == [] then 0.0
    else
      var top := MostCommon(starts, 5);
      MostCommonShape(starts, 5);
      MostCommonEntry(starts, 5, 0);
      HhiInUnitInterval(top, |starts|);
      ShareSquares(top, |starts|)
  }

  /**
   * The index counts only the five most common openings: it is the sum over
   * the first five of the ranking, never more than the sum over all of it,
   * and equal to that when there are at most five distinct openings.
   */
  lemma StartHhiTopFive(starts: seq<string>)
    requires starts != []
    ensures StartHhi(starts) == ShareSquares(Take(RankedStarts(starts), 5), |starts|)
    ensures StartHhi(starts) <= ShareSquares(RankedStarts(starts), |starts|)
    ensures |RankedStarts(starts)| <= 5 ==> StartHhi(starts) == ShareSquares(RankedStarts(starts), |starts|)
  {
    var ranked := RankedStarts(starts);
    ShareSquaresOfPrefix(ranked, |Take(ranked, 5)|, |starts|);
  }

  /** When every sentence opens with the same token the index is 1. */
  lemma StartHhiOfOneOpening(starts: seq<string>, w: string)
    requires starts != [] && forall i :: 0 <= i < |starts| ==> starts[i] == w
    ensures StartHhi(starts) == 1.0
  {
    MostCommonOfOneKey(starts, w);
    WholeShareSquared(w, |starts|);
  }

  lemma MostCommonOfOneKey(starts: seq<string>, w: string)
    requires starts != [] && forall i :: 0 <= i < |starts| ==> starts[i] == w
    ensures MostCommon(starts, 5) == [(w, |starts|)]
  {
    TallyOfOneKey(starts, w);
    var x := (w, |starts|);
    assert Insert([], x, NoTiebreak) == [x];
    assert SortByRank([x], NoTiebreak) == [x];
  }

  lemma WholeShareSquared(w: string, n: nat)
    requires n > 0
    ensures ShareSquares([(w, n)], n) == 1.0
  {
    RatioIsOne(n, n);
    assert ShareSquares([(w, n)], n) == 1.0 * 1.0 + ShareSquares([], n);
  }

  // ----- lexicon counts -----

  /** How many of `ws` belong to `lexicon`. */
  function CountIn(ws: seq<string>, lexicon: set<string>): (n: nat)
    ensures n <= |ws|
    decreases |ws|
  {
    if ws == [] then 0 else CountIn(ws[1..], lexicon) + (if ws[0] in lexicon then 1 else 0)
  }

  const NEUTRAL: string := "محايد"
  const LEANS_POSITIVE: string := "مائل للإيجاب"
  const LEANS_CRITICAL: string := "مائل للانتقاد"

  /** The sentiment balance label: neutral within a margin of 2, otherwise the side with more hits. */
  function Balance(pos: nat, neg: nat): (b: string)
    ensures b == NEUTRAL || b == LEANS_POSITIVE || b == LEANS_CRITICAL
  {
    if -2 <= pos - neg <= 2 then NEUTRAL
    else if pos > neg then LEANS_POSITIVE
    else LEANS_CRITICAL
  }

  /** Swapping the counts swaps the two leaning labels and keeps neutral neutral. */
  lemma BalanceSwaps(pos: nat, neg: nat)
    ensures Balance(pos, neg) == NEUTRAL <==> Balance(neg, pos) == NEUTRAL
    ensures Balance(pos, neg) == LEANS_POSITIVE <==> Balance(neg, pos) == LEANS_CRITICAL
    ensures Balance(pos, neg) == NEUTRAL <==> -2 <= pos - neg <= 2
  {
    assert |NEUTRAL| != |LEANS_POSITIVE| && |NEUTRAL| != |LEANS_CRITICAL| && |LEANS_POSITIVE| != |LEANS_CRITICAL|;
  }

  datatype Sentiment = Sentiment(positive: nat, negative: nat, balance: string)

  function SentimentOf(words: seq<string>): (s: Sentiment)
    ensures s.positive <= |words| && s.negative <= |words|
  {
    var lower := LowerAll(words);
    var pos := CountIn(lower, POSITIVE_TERMS);
    var neg := CountIn(lower, NEGATIVE_TERMS);
    Sentiment(pos, neg, Balance(pos, neg))
  }

  // ----- repeated n-grams -----

  /** `[w.lower() for w in words if w.lower() not in AR_STOPWORDS]`. */
  function ContentTokens(words: seq<string>): (r: seq<string>)
    ensures |r| <= |words|
    ensures forall k :: 0 <= k < |r| ==> r[k] !in STOPWORDS
    decreases |words|
  {
    if words == [] then []
    else (if Lower(words[0]) in STOPWORDS then [] else [Lower(words[0])]) + ContentTokens(words[1..])
  }

  /** Whether the loop over `most_common(30)` keeps an entry. */
  predicate Keeps(entry: (string, nat), minCount: nat, minWords: nat) {
    entry.1 >= minCount && |SplitWs(entry.0)| >= minWords
  }

  /** The entries of `top` the loop keeps, in order. */
  function Frequent(top: seq<(string, nat)>, minCount: nat, minWords: nat): (r: seq<(string, nat)>)
    ensures |r| <= |top|
    ensures forall x :: x in r <==> x in top && Keeps(x, minCount, minWords)
    decreases |top|
  {
    if top == [] then []
    else
      var last := top[|top| - 1];
      assert forall x :: x in top <==> x in top[..|top| - 1] || x == last;
      Frequent(top[..|top| - 1], minCount, minWords) + (if Keeps(last, minCount, minWords) then [last] else [])
  }

  /** `len(x[0])`, the secondary sort key of `repeated`. */
  function PhraseLength(phrase: string): int { |phrase| }

  /** The 30 most common bigrams and trigrams of the content tokens. */
  function TopBigrams(words: seq<string>): seq<(string, nat)> { MostCommon(Ngrams(ContentTokens(words), 2), 30) }
  function TopTrigrams(words: seq<string>): seq<(string, nat)> { MostCommon(Ngrams(ContentTokens(words), 3), 30) }

  /** `repeated` before the top-15 cut: frequent bigrams and trigrams, by count and then phrase length. */
  function Repeated(words: seq<string>): seq<(string, nat)> {
    SortByRank(Frequent(TopBigrams(words), 3, 2) + Frequent(TopTrigrams(words), 2, 3), PhraseLength)
  }

  /** One loop over a `most_common(30)` list, appending the entries it keeps. */
  method KeepFrequent(top: seq<(string, nat)>, minCount: nat, minWords: nat) returns (kept: seq<(string, nat)>)
    ensures kept == Frequent(top, minCount, minWords)
  {
    kept := [];
    for i := 0 to |top|
      invariant kept == Frequent(top[..i], minCount, minWords)
    {
      assert top[..i + 1][..i] == top[..i];
      var (gram, c) := top[i];
      if c >= minCount && |SplitWs(gram)| >= minWords {
        kept := kept + [(gram, c)];
      }
    }
    assert top[..|top|] == top;
  }

  /** The bigram loop, the trigram loop and the final sort of `repeated`. */
  method RepeatedPhrases(words: seq<string>) returns (repeated: seq<(string, nat)>)
    ensures repeated == Repeated(words)
  {
    var fromBigrams := KeepFrequent(TopBigrams(words), 3, 2);
    var fromTrigrams := KeepFrequent(TopTrigrams(words), 2, 3);
    repeated := SortByRank(fromBigrams + fromTrigrams, PhraseLength);
  }

  /**
   * Every entry of `repeated` is a bigram of the 30 most common seen at least
   * 3 times, or a trigram of the 30 most common seen at least twice, with its
   * true count; the list is ordered by count and then phrase length, both
   * descending, and has at most 60 entries.
   */
  lemma RepeatedEntries(words: seq<string>)
    ensures SortedByRank(Repeated(words), PhraseLength)
    ensures |Repeated(words)| <= 60
    ensures forall x :: x in Repeated(words) ==>
      (x in TopBigrams(words) && Keeps(x, 3, 2) && x.1 == multiset(Ngrams(ContentTokens(words), 2))[x.0])
      || (x in TopTrigrams(words) && Keeps(x, 2, 3) && x.1 == multiset(Ngrams(ContentTokens(words), 3))[x.0])
  {
    var toks := ContentTokens(words);
    var bi := TopBigrams(words);
    var tri := TopTrigrams(words);
    var kept := Frequent(bi, 3, 2) + Frequent(tri, 2, 3);
    MostCommonShape(Ngrams(toks, 2), 30);
    MostCommonShape(Ngrams(toks, 3), 30);
    forall x | x in Repeated(words)
      ensures (x in bi && Keeps(x, 3, 2) && x.1 == multiset(Ngrams(toks, 2))[x.0])
           || (x in tri && Keeps(x, 2, 3) && x.1 == multiset(Ngrams(toks, 3))[x.0])
    {
      assert x in multiset(Repeated(words));
      assert x in kept;
      if x in bi && Keeps(x, 3, 2) {
        MostCommonMember(Ngrams(toks, 2), 30, x);
      } else {
        MostCommonMember(Ngrams(toks, 3), 30, x);
      }
    }
  }

  /** `sum(c - 2 for _, c in repeated if c >= 3)`: repeats beyond the second of each frequent phrase. */
  function ExcessRepeats(repeated: seq<(string, nat)>): (n: nat)
    ensures n <= SumCounts(repeated)
    decreases |repeated|
  {
    if repeated == [] then 0
    else (if repeated[0].1 >= 3 then repeated[0].1 - 2 else 0) + ExcessRepeats(repeated[1..])
  }

  // ----- boilerplate -----

  /** One `boilerplate_flags` entry. */
  datatype BoilerFlag = BoilerFlag(pattern: string, excerpt: string)

  /** The flags for the matches of one pattern. */
  function FlagsFor(text: string, pattern: string, spans: seq<MatchSpan>): (r: seq<BoilerFlag>)
    ensures |r| == |spans|
    ensures forall i :: 0 <= i < |r| ==> r[i] == BoilerFlag(pattern, ExtractExcerpt(text, spans[i]))
  {
    Mapped(spans, (m: MatchSpan) => BoilerFlag(pattern, ExtractExcerpt(text, m)))
  }

  /** How many matches the case-insensitive searches of `patterns` find. */
  function MatchCount(text: string, finditer: Regex, patterns: seq<string>): nat
    decreases |patterns|
  {
    if patterns == [] then 0
    else
      MatchCount(text, finditer, patterns[..|patterns| - 1]) + |finditer(IgnoreCase(patterns[|patterns| - 1]), text)|
  }

  /** The flags of all patterns, pattern by pattern, each pattern's matches in order. */
  function BoilerFlagsOf(text: string, finditer: Regex, patterns: seq<string>): (r: seq<BoilerFlag>)
    ensures |r| == MatchCount(text, finditer, patterns)
    decreases |patterns|
  {
    if patterns == [] then []
    else
      var p := patterns[|patterns| - 1];
      BoilerFlagsOf(text, finditer, patterns[..|patterns| - 1]) + FlagsFor(text, p, finditer(IgnoreCase(p), text))
  }

  /** Every flag names one of the patterns, and no excerpt spans a line break. */
  lemma {:induction false} BoilerFlagsShape(text: string, finditer: Regex, patterns: seq<string>)
    ensures forall k :: 0 <= k < |BoilerFlagsOf(text, finditer, patterns)| ==> BoilerFlagsOf(text, finditer, patterns)[k].pattern in patterns
    ensures forall k, i :: 0 <= k < |BoilerFlagsOf(text, finditer, patterns)| && 0 <= i < |BoilerFlagsOf(text, finditer, patterns)[k].excerpt| ==>
      BoilerFlagsOf(text, finditer, patterns)[k].excerpt[i] != '\n'
    decreases |patterns|
  {
    if patterns != [] {
      var n := |patterns| - 1;
      var p := patterns[n];
      var pre := BoilerFlagsOf(text, finditer, patterns[..n]);
      var last := FlagsFor(text, p, finditer(IgnoreCase(p), text));
      var r := BoilerFlagsOf(text, finditer, patterns);
      assert r == pre + last;
      BoilerFlagsShape(text, finditer, patterns[..n]);
      forall k | 0 <= k < |r|
        ensures r[k].pattern in patterns
        ensures forall i :: 0 <= i < |r[k].excerpt| ==> r[k].excerpt[i] != '\n'
      {
        if k < |pre| {
          assert r[k] == pre[k];
          assert pre[k].pattern in patterns[..n];
        } else {
          assert r[k] == last[k - |pre|];
        }
      }
    }
  }

  lemma BoilerFlagsStep(text: string, finditer: Regex, patterns: seq<string>, i: nat)
    requires i < |patterns|
    ensures BoilerFlagsOf(text, finditer, patterns[..i + 1])
      == BoilerFlagsOf(text, finditer, patterns[..i]) + FlagsFor(text, patterns[i], finditer(IgnoreCase(patterns[i]), text))
  {
    assert patterns[..i + 1][..i] == patterns[..i];
  }

  /** The nested loops collecting `boiler_flags`. */
  method BoilerplateFlags(text: string, finditer: Regex) returns (flags: seq<BoilerFlag>)
    ensures flags == BoilerFlagsOf(text, finditer, BOILERPLATE_PATTERNS)
  {
    var patterns := BOILERPLATE_PATTERNS;
    flags := [];
    for i := 0 to |patterns|
      invariant flags == BoilerFlagsOf(text, finditer, patterns[..i])
    {
      var pat := patterns[i];
      var spans := finditer(IgnoreCase(pat), text);
      BoilerFlagsStep(text, finditer, patterns, i);
      flags := AppendFlags(flags, text, pat, spans);
    }
    assert patterns[..|patterns|] == patterns;
  }

  /** The inner loop: one flag per match of the pattern, appended in match order. */
  method AppendFlags(flags0: seq<BoilerFlag>, text: string, pat: string, spans: seq<MatchSpan>) returns (flags: seq<BoilerFlag>)
    ensures flags == flags0 + FlagsFor(text, pat, spans)
  {
    flags := flags0;
    for j := 0 to |spans|
      invariant flags == flags0 + FlagsFor(text, pat, spans[..j])
    {
      MappedStep(spans, (m: MatchSpan) => BoilerFlag(pat, ExtractExcerpt(text, m)), j);
      flags := flags + [BoilerFlag(pat, ExtractExcerpt(text, spans[j]))];
    }
    assert spans[..|spans|] == spans;
  }

  // ----- headings, E-E-A-T and information gain -----

  datatype Headings = Headings(h2: nat, h3: nat, faqSections: nat)

  function HeadingsOf(text: string, finditer: Regex): (h: Headings)
    ensures h.faqSections <= 1
  {
    Headings(|finditer(H2_PATTERN, text)|, |finditer(H3_PATTERN, text)|, Flag(finditer, FAQ_PATTERN, text))
  }

  datatype Eeat = Eeat(experience: nat, expertise: nat, author: nat, trust: nat)

  function EeatOf(text: string, finditer: Regex): (e: Eeat)
    ensures e.experience <= 1 && e.expertise <= 1 && e.author <= 1 && e.trust <= 1
  {
    Eeat(Flag(finditer, EXPERIENCE_PATTERN, text), Flag(finditer, EXPERTISE_PATTERN, text),
         Flag(finditer, AUTHOR_PATTERN, text), Flag(finditer, TRUST_PATTERN, text))
  }

  /** `sum(eeat_signals.values()) / 4 * 100`: 25 points per signal present. */
  function EeatScore(e: Eeat): (s: real)
    requires e.experience <= 1 && e.expertise <= 1 && e.author <= 1 && e.trust <= 1
    ensures s == 0.0 || s == 25.0 || s == 50.0 || s == 75.0 || s == 100.0
    ensures s == 100.0 <==> e == Eeat(1, 1, 1, 1)
    ensures s == 0.0 <==> e == Eeat(0, 0, 0, 0)
  {
    (e.experience + e.expertise + e.author + e.trust) as real / 4.0 * 100.0
  }

  /** How many of `patterns` find something in `text`. */
  function PatternsFound(finditer: Regex, text: string, patterns: seq<string>): (n: nat)
    ensures n <= |patterns|
    decreases |patterns|
  {
    if patterns == [] then 0
    else PatternsFound(finditer, text, patterns[..|patterns| - 1]) + Flag(finditer, patterns[|patterns| - 1], text)
  }

  /** `info_gain_points`: one point per information-gain search that finds something. */
  function InfoGainPoints(finditer: Regex, text: string): (n: nat)
    ensures n <= 5
  {
    PatternsFound(finditer, text, INFO_GAIN_PATTERNS)
  }

  /** The five `if re.search(...): info_gain_points += 1` steps, in order. */
  method CountInfoGain(text: string, finditer: Regex) returns (points: nat)
    ensures points == InfoGainPoints(finditer, text)
  {
    var patterns := INFO_GAIN_PATTERNS;
    points := 0;
    if Found(finditer, patterns[0], text) { points := points + 1; }
    FoundAfter(finditer, text, patterns, 0, points);
    if Found(finditer, patterns[1], text) { points := points + 1; }
    FoundAfter(finditer, text, patterns, 1, points);
    if Found(finditer, patterns[2], text) { points := points + 1; }
    FoundAfter(finditer, text, patterns, 2, points);
    if Found(finditer, patterns[3], text) { points := points + 1; }
    FoundAfter(finditer, text, patterns, 3, points);
    if Found(finditer, patterns[4], text) { points := points + 1; }
    FoundAfter(finditer, text, patterns, 4, points);
    assert patterns[..5] == patterns;
  }

  /** After the search for `patterns[k]`, the points count the finds among the first `k + 1` patterns. */
  lemma FoundAfter(finditer: Regex, text: string, patterns: seq<string>, k: nat, points: nat)
    requires k < |patterns|
    requires k == 0 ==> points == Flag(finditer, patterns[0], text)
    requires k > 0 ==> points == PatternsFound(finditer, text, patterns[..k]) + Flag(finditer, patterns[k], text)
    ensures points == PatternsFound(finditer, text, patterns[..k + 1])
  {
    assert patterns[..k + 1][..k] == patterns[..k];
  }

  /** `info_gain_score`: 20 points per information-gain signal. */
  function InfoGainScore(points: nat): (s: real)
    ensures 0.0 <= s <= 100.0
    ensures points <= 5 ==> s == 20.0 * points as real
  {
    Clip(points as real / 5.0 * 100.0, 0.0, 100.0)
  }

  // ----- fluff density -----

  /**
   * `fluff_density`: boilerplate flags, absolute words and excess repeats of
   * the whole `repeated` list, as a percentage of `max(1, word_count // 50)`.
   */
  function FluffDensity(boilerCount: nat, absCount: nat, repeated: seq<(string, nat)>, wordCount: nat): (f: real)
    ensures f >= 0.0
    ensures wordCount < 100 ==> f == 100.0 * (boilerCount + absCount + ExcessRepeats(repeated)) as real
  {
    Percent(boilerCount + absCount + ExcessRepeats(repeated), AtLeastOne(wordCount / 50))
  }

  // ----- the composite score -----

  function SensoryBonus(sensoryRatio: real): (b: real)
    ensures 0.0 <= b <= 20.0
  {
    Clip(sensoryRatio / 2.0, 0.0, 20.0)
  }

  function VocabularyBonus(ttr: real): (b: real)
    ensures 0.0 <= b <= 20.0
  {
    Clip(ttr * 40.0, 0.0, 20.0)
  }

  function InfoGainBonus(infoGainScore: real): (b: real)
    ensures 0.0 <= b <= 20.0
  {
    Clip(infoGainScore / 5.0, 0.0, 20.0)
  }

  /** Grows with the concentration of sentence openings beyond 0.2. */
  function HhiPenalty(startHhi: real): (p: real)
    ensures 0.0 <= p <= 40.0
    ensures startHhi <= 0.2 ==> p == 0.0
  {
    Clip((startHhi - 0.2) * 200.0, 0.0, 40.0)
  }

  function PassivePenalty(passiveRatio: real): (p: real)
    ensures 0.0 <= p <= 30.0
  {
    Clip(passiveRatio, 0.0, 30.0)
  }

  function FluffPenalty(fluffDensity: real): (p: real)
    ensures 0.0 <= p <= 30.0
  {
    Clip(fluffDensity, 0.0, 30.0)
  }

  function LongSentencePenalty(avgSent: real): (p: real)
    ensures p == 0.0 || p == 10.0
    ensures p == 10.0 <==> avgSent > 28.0
  {
    if avgSent > 28.0 then 10.0 else 0.0
  }

  /**
   * `human_style_score`: 50 plus the three bonuses, minus the four penalties,
   * clamped to [0, 100].
   */
  function StyleScore(sensoryRatio: real, ttr: real, infoGainScore: real, startHhi: real,
                      passiveRatio: real, fluffDensity: real, avgSent: real): (s: real)
    ensures 0.0 <= s <= 100.0
  {
    var base := 50.0 + SensoryBonus(sensoryRatio) + VocabularyBonus(ttr) + InfoGainBonus(infoGainScore)
      - (HhiPenalty(startHhi) + PassivePenalty(passiveRatio) + FluffPenalty(fluffDensity) + LongSentencePenalty(avgSent));
    Clip(base, 0.0, 100.0)
  }

  /** The step-by-step computation of `base_score` and its clamp. */
  method HumanStyleScore(sensoryRatio: real, ttr: real, infoGainScore: real, startHhi: real,
                         passiveRatio: real, fluffDensity: real, avgSent: real) returns (score: real)
    ensures score == StyleScore(sensoryRatio, ttr, infoGainScore, startHhi, passiveRatio, fluffDensity, avgSent)
    ensures 0.0 <= score <= 100.0
  {
    var hhiPenalty := Clip((startHhi - 0.2) * 200.0, 0.0, 40.0);
    var passivePenalty := Clip(passiveRatio, 0.0, 30.0);
    var fluffPenalty := Clip(fluffDensity, 0.0, 30.0);
    var longSentPenalty := if avgSent > 28.0 then 10.0 else 0.0;
    var base := 50.0;
    base := base + Clip(sensoryRatio / 2.0, 0.0, 20.0);
    base := base + Clip(ttr * 40.0, 0.0, 20.0);
    base := base + Clip(infoGainScore / 5.0, 0.0, 20.0);
    base := base - (hhiPenalty + passivePenalty + fluffPenalty + longSentPenalty);
    score := Clip(base, 0.0, 100.0);
  }

  /** With no signal either way the score is the neutral 50. */
  lemma StyleScoreNeutral()
    ensures StyleScore(0.0, 0.0, 0.0, 0.0, 0.0, 0.0, 0.0) == 50.0
  {
  }

  /** More sensory vocabulary never lowers the score. */
  lemma StyleScoreRisesWithSensory(s1: real, s2: real, ttr: real, ig: real, hhi: real, passive: real, fluff: real, avgSent: real)
    requires s1 <= s2
    ensures StyleScore(s1, ttr, ig, hhi, passive, fluff, avgSent) <= StyleScore(s2, ttr, ig, hhi, passive, fluff, avgSent)
  {
    ClipMonotone(s1 / 2.0, s2 / 2.0, 0.0, 20.0);
    var other := VocabularyBonus(ttr) + InfoGainBonus(ig)
      - (HhiPenalty(hhi) + PassivePenalty(passive) + FluffPenalty(fluff) + LongSentencePenalty(avgSent));
    ClipMonotone(50.0 + SensoryBonus(s1) + other, 50.0 + SensoryBonus(s2) + other, 0.0, 100.0);
  }

  /** More passive voice never raises the score. */
  lemma StyleScoreFallsWithPassive(sr: real, ttr: real, ig: real, hhi: real, p1: real, p2: real, fluff: real, avgSent: real)
    requires p1 <= p2
    ensures StyleScore(sr, ttr, ig, hhi, p2, fluff, avgSent) <= StyleScore(sr, ttr, ig, hhi, p1, fluff, avgSent)
  {
    ClipMonotone(p1, p2, 0.0, 30.0);
    var bonus := 50.0 + SensoryBonus(sr) + VocabularyBonus(ttr) + InfoGainBonus(ig);
    var other := HhiPenalty(hhi) + FluffPenalty(fluff) + LongSentencePenalty(avgSent);
    ClipMonotone(bonus - (HhiPenalty(hhi) + PassivePenalty(p2) + FluffPenalty(fluff) + LongSentencePenalty(avgSent)),
                 bonus - (HhiPenalty(hhi) + PassivePenalty(p1) + FluffPenalty(fluff) + LongSentencePenalty(avgSent)), 0.0, 100.0);
  }

  /** Case-insensitive searches that find nothing in the empty text count no matches there. */
  lemma {:induction false} NoMatchesInEmptyText(finditer: Regex, patterns: seq<string>)
    requires forall k :: 0 <= k < |patterns| ==> finditer(IgnoreCase(patterns[k]), "") == []
    ensures MatchCount("", finditer, patterns) == 0
    decreases |patterns|
  {
    if patterns != [] {
      NoMatchesInEmptyText(finditer, patterns[..|patterns| - 1]);
    }
  }

  /** Searches that find nothing in the empty text give no point there. */
  lemma {:induction false} NothingFoundInEmptyText(finditer: Regex, patterns: seq<string>)
    requires forall k :: 0 <= k < |patterns| ==> finditer(patterns[k], "") == []
    ensures PatternsFound(finditer, "", patterns) == 0
    decreases |patterns|
  {
    if patterns != [] {
      NothingFoundInEmptyText(finditer, patterns[..|patterns| - 1]);
    }
  }

  /** No words, no n-grams: nothing is repeated. */
  lemma NothingRepeatedWithoutWords()
    ensures Repeated([]) == []
  {
    assert ContentTokens([]) == [];
    assert Ngrams([], 2) == [] && Ngrams([], 3) == [];
    assert Tally<string>([]) == [];
  }

  /**
   * On the empty text, when no search finds anything there, every bonus and
   * every penalty is zero and the score is the neutral 50.
   */
  lemma EmptyTextScore(text: string, finditer: Regex)
    requires text == [] && NoMatchInEmptyText(finditer)
    ensures StyleScore(Percent(CountIn(LowerAll(Words(text)), SENSORY_TERMS), |Words(text)|), Ttr(Words(text)),
                       InfoGainScore(InfoGainPoints(finditer, text)), StartHhi(StartsOf(Sentences(text))),
                       Percent(|finditer(PASSIVE_PATTERN, text)|, AtLeastOne(|Sentences(text)|)),
                       FluffDensity(|BoilerFlagsOf(text, finditer, BOILERPLATE_PATTERNS)|, CountIn(Words(text), ABSOLUTE_WORDS),
                                    Repeated(Words(text)), |Words(text)|),
                       Mean(OrZero(WordCounts(Sentences(text))))) == 50.0
  {
    EmptyTextMeasures(text);
    EmptyTextSearches(text, finditer);
    StyleScoreNeutral();
  }

  /** The text-only inputs of the score are all 0 on the empty text. */
  lemma EmptyTextMeasures(text: string)
    requires text == []
    ensures Percent(CountIn(LowerAll(Words(text)), SENSORY_TERMS), |Words(text)|) == 0.0
    ensures Ttr(Words(text)) == 0.0 && StartHhi(StartsOf(Sentences(text))) == 0.0
    ensures Mean(OrZero(WordCounts(Sentences(text)))) == 0.0
  {
    assert OrZero(WordCounts(Sentences(text))) == [0];
  }

  /** The search-based inputs of the score are 0 on the empty text when no search finds anything there. */
  lemma EmptyTextSearches(text: string, finditer: Regex)
    requires text == [] && NoMatchInEmptyText(finditer)
    ensures InfoGainScore(InfoGainPoints(finditer, text)) == 0.0
    ensures Percent(|finditer(PASSIVE_PATTERN, text)|, AtLeastOne(|Sentences(text)|)) == 0.0
    ensures FluffDensity(|BoilerFlagsOf(text, finditer, BOILERPLATE_PATTERNS)|, CountIn(Words(text), ABSOLUTE_WORDS),
                         Repeated(Words(text)), |Words(text)|) == 0.0
  {
    NothingFoundInEmptyText(finditer, INFO_GAIN_PATTERNS);
    EmptyTextFluff(text, finditer);
  }

  lemma EmptyTextFluff(text: string, finditer: Regex)
    requires text == [] && NoMatchInEmptyText(finditer)
    ensures FluffDensity(|BoilerFlagsOf(text, finditer, BOILERPLATE_PATTERNS)|, CountIn(Words(text), ABSOLUTE_WORDS),
                         Repeated(Words(text)), |Words(text)|) == 0.0
  {
    NoMatchesInEmptyText(finditer, BOILERPLATE_PATTERNS);
    var words := Words(text);
    assert words == [];
    NothingRepeatedWithoutWords();
    assert ExcessRepeats(Repeated(words)) == 0;
  }

  /** The length measures of the empty text: no sentence or paragraph, and `[0]` as their lengths. */
  lemma EmptyTextLengths(text: string)
    requires text == []
    ensures Mean(OrZero(WordCounts(Sentences(text)))) == 0.0
    ensures ParagraphMetricsOf(OrZero(WordCounts(Paragraphs(text)))).pctShortLt20w == 100.0
  {
    var lens := OrZero(WordCounts(Paragraphs(text)));
    assert lens == [0];
    assert CountBelow(lens, 20) == 1;
  }

  // ----- tips -----

  /** The writing tips of `_build_tips`, in the order they are checked. */
  datatype Tip =
    | AddSensoryDetail | VaryVocabulary | ReducePassive | CutGeneralities | VaryOpenings
    | SplitLongSentences | AddInformationGain | ShowExperience | SoftenAbsolutes
    | ReviewRepetition | ReplaceBoilerplate

  /** The position of a tip in the check order. */
  function Rank(t: Tip): (n: nat)
    ensures n < 11
  {
    match t
    case AddSensoryDetail => 0
    case VaryVocabulary => 1
    case ReducePassive => 2
    case CutGeneralities => 3
    case VaryOpenings => 4
    case SplitLongSentences => 5
    case AddInformationGain => 6
    case ShowExperience => 7
    case SoftenAbsolutes => 8
    case ReviewRepetition => 9
    case ReplaceBoilerplate => 10
  }

  /** The text the report shows for a tip. */
  function Message(t: Tip): string {
    match t
    case AddSensoryDetail => "أضِف أوصافًا حسّية دقيقة لطبق أو اثنين (قوام/تحمير/حرارة) لرفع الحسّية."
    case VaryVocabulary => "نوّع المفردات وتجنّب تكرار نفس الصفات."
    case ReducePassive => "خفّف صيغة المبني للمجهول؛ فضّل أفعالًا مباشرة (جرّبنا/لاحظنا)."
    case CutGeneralities => "احذف العموميات وبدّلها بأمثلة محددة قابلة للتحقق."
    case VaryOpenings => "ابدأ الجمل بطرق مختلفة (حالات/زمن/جار ومجرور/شرط) لكسر الرتابة."
    case SplitLongSentences => "قسّم الجمل الطويلة (>28 كلمة) إلى جملتين واضحتيْن."
    case AddInformationGain => "أضِف Pro Tip عمليًا أو مقارنة موجزة أو سلبية صغيرة متوازنة لرفع Information Gain."
    case ShowExperience => "أبرز خبرة مباشرة أو منهجية تحرير مختصرة لتعزيز E-E-A-T."
    case SoftenAbsolutes => "خفّف من الكلمات المطلقة (مثل: دائمًا/الأفضل) واستبدلها بتوصيف قابل للنقاش."
    case ReviewRepetition => "هناك عبارات متكررة؛ راجع أكثر N-grams تكرارًا وخفف تكرارها."
    case ReplaceBoilerplate => "توجد عبارات قالبية عامة؛ استبدلها بتفاصيل ملموسة من التجربة."
  }

  /** What `_build_tips` looks at: nine measurements and whether two lists are non-empty. */
  datatype TipSignals = TipSignals(
    sensoryRatio: real, ttr: real, passiveRatio: real, fluffDensity: real, startHhi: real,
    avgSent: real, infoGainScore: real, eeatScore: real, absCount: nat,
    hasRepeated: bool, hasBoilerplate: bool)

  /** The threshold under which each tip is given. */
  predicate Due(t: Tip, s: TipSignals) {
    match t
    case AddSensoryDetail => s.sensoryRatio < 0.8
    case VaryVocabulary => s.ttr < 0.35
    case ReducePassive => s.passiveRatio > 12.0
    case CutGeneralities => s.fluffDensity > 25.0
    case VaryOpenings => s.startHhi > 0.28
    case SplitLongSentences => s.avgSent > 28.0
    case AddInformationGain => s.infoGainScore < 60.0
    case ShowExperience => s.eeatScore < 50.0
    case SoftenAbsolutes => s.absCount > 0
    case ReviewRepetition => s.hasRepeated
    case ReplaceBoilerplate => s.hasBoilerplate
  }

  /** A list of tips in strictly increasing check order, hence without repeats. */
  predicate InCheckOrder(tips: seq<Tip>) {
    forall i, j :: 0 <= i < j < |tips| ==> Rank(tips[i]) < Rank(tips[j])
  }

  /** The tip checked in position `k`. */
  function TipAt(k: nat): (t: Tip)
    requires k < 11
    ensures Rank(t) == k
  {
    if k == 0 then AddSensoryDetail
    else if k == 1 then VaryVocabulary
    else if k == 2 then ReducePassive
    else if k == 3 then CutGeneralities
    else if k == 4 then VaryOpenings
    else if k == 5 then SplitLongSentences
    else if k == 6 then AddInformationGain
    else if k == 7 then ShowExperience
    else if k == 8 then SoftenAbsolutes
    else if k == 9 then ReviewRepetition
    else ReplaceBoilerplate
  }

  /** The first `k` checks are done: their tips are in order and present exactly when due. */
  ghost predicate DecidedBelow(tips: seq<Tip>, k: nat, s: TipSignals) {
    InCheckOrder(tips) && |tips| <= k
    && (forall i :: 0 <= i < |tips| ==> Rank(tips[i]) < k)
    && (forall t :: Rank(t) < k ==> (t in tips <==> Due(t, s)))
  }

  /** One `if ...: tips.append(...)` of `_build_tips`: the check in position `Rank(tip)`. */
  method AddTipIf(tips: seq<Tip>, due: bool, tip: Tip, ghost k: nat, ghost s: TipSignals) returns (r: seq<Tip>)
    requires Rank(tip) == k && DecidedBelow(tips, k, s) && due == Due(tip, s)
    ensures DecidedBelow(r, k + 1, s)
  {
    r := if due then tips + [tip] else tips;
    forall t | Rank(t) < Rank(tip) + 1
      ensures t in r <==> Due(t, s)
    {
      if Rank(t) == Rank(tip) {
        assert t == tip by {
          match t
          case AddSensoryDetail =>
          case VaryVocabulary =>
          case ReducePassive =>
          case CutGeneralities =>
          case VaryOpenings =>
          case SplitLongSentences =>
          case AddInformationGain =>
          case ShowExperience =>
          case SoftenAbsolutes =>
          case ReviewRepetition =>
          case ReplaceBoilerplate =>
        }
        assert t !in tips;
      }
    }
  }

  /** `_build_tips`: every tip whose threshold holds, exactly those, in check order. */
  method BuildTips(sensoryRatio: real, ttr: real, passiveRatio: real, fluffDensity: real, startHhi: real,
                   avgSent: real, infoGainScore: real, eeatScore: real, absCount: nat,
                   repeated: seq<(string, nat)>, boiler: seq<BoilerFlag>) returns (tips: seq<Tip>)
    ensures forall t :: t in tips <==> Due(t, TipSignals(sensoryRatio, ttr, passiveRatio, fluffDensity, startHhi,
                                                         avgSent, infoGainScore, eeatScore, absCount,
                                                         repeated != [], boiler != []))
    ensures InCheckOrder(tips)
    ensures |tips| <= 11
  {
    ghost var s := TipSignals(sensoryRatio, ttr, passiveRatio, fluffDensity, startHhi,
                              avgSent, infoGainScore, eeatScore, absCount, repeated != [], boiler != []);
    tips := [];
    tips := AddTipIf(tips, sensoryRatio < 0.8, AddSensoryDetail, 0, s);
    tips := AddTipIf(tips, ttr < 0.35, VaryVocabulary, 1, s);
    tips := AddTipIf(tips, passiveRatio > 12.0, ReducePassive, 2, s);
    tips := AddTipIf(tips, fluffDensity > 25.0, CutGeneralities, 3, s);
    tips := AddTipIf(tips, startHhi > 0.28, VaryOpenings, 4, s);
    tips := AddTipIf(tips, avgSent > 28.0, SplitLongSentences, 5, s);
    tips := AddTipIf(tips, infoGainScore < 60.0, AddInformationGain, 6, s);
    tips := AddTipIf(tips, eeatScore < 50.0, ShowExperience, 7, s);
    tips := AddTipIf(tips, absCount > 0, SoftenAbsolutes, 8, s);
    tips := AddTipIf(tips, |repeated| > 0, ReviewRepetition, 9, s);
    tips := AddTipIf(tips, |boiler| > 0, ReplaceBoilerplate, 10, s);
  }

  // ----- the report -----

  /**
   * The report `quality_report` returns, without the final rounding; the
   * paragraph spread is given as a variance, the square of `std_len`.
   */
  datatype Report = Report(
    charCount: nat, wordCount: nat, sentenceCount: nat, paragraphCount: nat,
    avgSentenceLength: real,
    paragraphMetrics: ParagraphMetrics,
    startTop: seq<(string, nat)>, startHhi: real,
    ttr: real, sensoryRatio: real, passiveRatio: real,
    boilerplateFlags: seq<BoilerFlag>,
    repeatedPhrases: seq<(string, nat)>,
    absolutesCount: nat,
    sentiment: Sentiment, headings: Headings, eeat: Eeat, eeatScore: real,
    infoGainScore: real, fluffDensity: real, humanStyleScore: real,
    tips: seq<Tip>)

  /** `quality_report`: the whole analysis in one pass over the text. */
  method QualityReport(text: string, finditer: Regex) returns (r: Report)
    ensures r.charCount == |text| && r.wordCount == |Words(text)|
    ensures r.sentenceCount == |Sentences(text)| && r.paragraphCount == |Paragraphs(text)|
    ensures r.avgSentenceLength == Mean(OrZero(WordCounts(Sentences(text))))
    ensures r.paragraphMetrics == ParagraphMetricsOf(OrZero(WordCounts(Paragraphs(text))))
    ensures r.startTop == MostCommon(StartsOf(Sentences(text)), 5)
    ensures r.startHhi == StartHhi(StartsOf(Sentences(text)))
    ensures r.ttr == Ttr(Words(text))
    ensures r.sensoryRatio == Percent(CountIn(LowerAll(Words(text)), SENSORY_TERMS), |Words(text)|)
    ensures r.passiveRatio == Percent(|finditer(PASSIVE_PATTERN, text)|, AtLeastOne(|Sentences(text)|))
    ensures r.boilerplateFlags == BoilerFlagsOf(text, finditer, BOILERPLATE_PATTERNS)
    ensures r.repeatedPhrases == Take(Repeated(Words(text)), 15)
    ensures r.absolutesCount == CountIn(Words(text), ABSOLUTE_WORDS)
    ensures r.sentiment == SentimentOf(Words(text))
    ensures r.headings == HeadingsOf(text, finditer)
    ensures r.eeat == EeatOf(text, finditer) && r.eeatScore == EeatScore(r.eeat)
    ensures r.infoGainScore == InfoGainScore(InfoGainPoints(finditer, text))
    ensures r.fluffDensity == FluffDensity(|r.boilerplateFlags|, r.absolutesCount, Repeated(Words(text)), r.wordCount)
    ensures r.humanStyleScore == StyleScore(r.sensoryRatio, r.ttr, r.infoGainScore, r.startHhi,
                                            r.passiveRatio, r.fluffDensity, r.avgSentenceLength)
    ensures forall t :: t in r.tips <==> Due(t, TipSignals(r.sensoryRatio, r.ttr, r.passiveRatio, r.fluffDensity,
                                             r.startHhi, r.avgSentenceLength, r.infoGainScore, r.eeatScore,
                                             r.absolutesCount, Repeated(Words(text)) != [], r.boilerplateFlags != []))
    ensures InCheckOrder(r.tips)
  {
    var words := Words(text);
    var wordCount := |words|;
    var sentences := Sentences(text);
    var paragraphs := Paragraphs(text);

    var sentLens := OrZero(WordCounts(sentences));
    var paraLens := OrZero(WordCounts(paragraphs));
    var avgSent := Mean(sentLens);
    var paragraphMetrics := ParagraphMetricsOf(paraLens);

    var starts := SentenceStarts(sentences);
    var startTop := MostCommon(starts, 5);
    var startHhi := StartHhi(starts);

    var sensoryRatio := Percent(CountIn(LowerAll(words), SENSORY_TERMS), wordCount);

    var repeated := RepeatedPhrases(words);
    var boilerFlags := BoilerplateFlags(text, finditer);

    var passiveHits := |finditer(PASSIVE_PATTERN, text)|;
    var passiveRatio := Percent(passiveHits, AtLeastOne(|sentences|));

    var ttr := Ttr(words);
    var sentiment := SentimentOf(words);
    var absCount := CountIn(words, ABSOLUTE_WORDS);
    var headings := HeadingsOf(text, finditer);
    var eeat := EeatOf(text, finditer);
    var eeatScore := EeatScore(eeat);
    var infoGainPoints := CountInfoGain(text, finditer);
    var infoGainScore := InfoGainScore(infoGainPoints);
    var fluffDensity := FluffDensity(|boilerFlags|, absCount, repeated, wordCount);

    var score := HumanStyleScore(sensoryRatio, ttr, infoGainScore, startHhi, passiveRatio, fluffDensity, avgSent);
    var tips := BuildTips(sensoryRatio, ttr, passiveRatio, fluffDensity, startHhi,
                          avgSent, infoGainScore, eeatScore, absCount, repeated, boilerFlags);

    r := Report(|text|, wordCount, |sentences|, |paragraphs|, avgSent, paragraphMetrics,
                startTop, startHhi, ttr, sensoryRatio, passiveRatio, boilerFlags, Take(repeated, 15),
                absCount, sentiment, headings, eeat, eeatScore, infoGainScore, fluffDensity, score, tips);
  }
}
