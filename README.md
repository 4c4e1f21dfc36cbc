# Restaurant article assistant: verified model of its text and data core

The application helps an editor write Arabic restaurant round-up articles.
It gathers places from Google Places, asks a language model for a draft,
and checks the result. This project models in Dafny the deterministic logic
behind that flow, and proves what that logic promises:

- **Quality analyser** (`utils/quality_checks.py`):
  - segmentation into words, sentences and paragraphs;
  - paragraph statistics;
  - the sentence-opening concentration index over the five most common openings;
  - type-token ratio, sensory, sentiment and absolute-word counts;
  - repeated bigrams and trigrams;
  - fluff density, E-E-A-T and information-gain signals;
  - the clamped "human style" score and the ordered list of writing tips.
- **Required keywords** (`utils/keywords.py`): the `keyword | min=N` list parser,
  the occurrence count and the enforcement report.
- **Places data** (`utils/places_provider.py`):
  - slugs, the last four phone digits, price bands and Thursday opening hours;
  - query hits and the place score weights;
  - the dedupe key and "keep the stronger record" de-duplication;
  - the reference list and the facts block built from places.
- **Human-likeness report** (`utils/human_check.py`).
- **Reference list** (`utils/references.py`): URL normalisation with de-duplication,
  and the citation map.
- **WordPress client** (`utils/wp_client.py`): the post slugifier and REST base-URL
  normalisation.
- **Competitor analysis** (`utils/competitor_analysis.py`): keyword frequencies.
- **Application helpers** (`app.py`): the URL-block parser, the JSON-or-text
  splitter, the prompt builder and the in-memory answer cache with a time-to-live.

One module per source file: `QualityChecks`, `Keywords`, `Places`,
`HumanCheck`, `References`, `WpClient`, `CompetitorAnalysis`, `App`. Shared
helpers live in `Text` (Python `str` behaviour), `Collections` (`set`,
`Counter`, `most_common`, ordered de-duplication, stable sort), `Urls` (the
`netloc` of `urlparse`) and `Stats` (mean and variance).

Code that builds its result step by step is modelled as a `method` with its
loop. Each such method is proved equal to a reference function, and the
properties are proved about that function. This covers the loops of
`quality_report`, `_build_tips`, `parse_required_keywords`, `enforce_report`,
`dedupe_places`, `references_from_places`, `facts_markdown`,
`extract_thursday_range`, `_hits`, `normalize_refs`, `analyze_competitors`,
`parse_urls_block` and `build_prompt`. The `LLMCacher` cache is a class
whose `mem` map its methods update. `WPClient` is a class whose constructor
sets `base`.

Python numbers are modelled as follows:
- Floats are modelled as exact `real`s.
- Integers are unbounded, as in Python.
- Integer division `//` is used only on non-negative operands, where Dafny's `/` agrees.

## Model

| member | source | states |
|---|---|---|
| QualityChecks.CollapseSpaces | utils/quality_checks.py:39 | every whitespace run becomes one space: only ' ' remains as whitespace and never twice in a row; non-space ends are kept |
| QualityChecks.Normalize | utils/quality_checks.py:37-39 | the normalised text has no newline, no whitespace but single spaces, and no whitespace at either end |
| QualityChecks.SentenceBreak | utils/quality_checks.py:44 | a break is found exactly when it is non-empty, and lies in the remaining text |
| QualityChecks.TerminatorBreak | utils/quality_checks.py:44 | a break is whitespace right after '.', '!' or '؟', and none occurs before it |
| QualityChecks.Sentences | utils/quality_checks.py:41-45 | every sentence is non-empty; the empty text has none |
| QualityChecks.NewlineBranchNeverFires | utils/quality_checks.py:43-44 | after normalisation the `\n+` alternative of the splitter never matches |
| QualityChecks.OneSentenceWithoutTerminators | utils/quality_checks.py:41-45 | a non-blank text with no terminator followed by whitespace is one sentence, its normalised form |
| QualityChecks.ParagraphBreak | utils/quality_checks.py:48 | a paragraph break spans at least two characters, from one newline to another |
| QualityChecks.Paragraphs | utils/quality_checks.py:47-49 | every paragraph is non-empty; the empty text has none |
| QualityChecks.OneParagraphWithoutNewlines | utils/quality_checks.py:47-49 | a text on one line is one paragraph, its stripped self, or none when blank |
| QualityChecks.Words | utils/quality_checks.py:51-53 | every word is a non-empty run of Latin letters, digits and Arabic-block characters; the empty text has none |
| QualityChecks.Ttr | utils/quality_checks.py:55-57 | the type-token ratio is 0 without words and in (0, 1] otherwise |
| QualityChecks.TtrIsOneIffNoRepeats | utils/quality_checks.py:55-57 | the ratio is 1 exactly when no lowered word repeats |
| QualityChecks.Ngrams | utils/quality_checks.py:59-60 | there are `len - n + 1` windows (none when too few tokens), the `i`-th joining tokens `i` to `i + n - 1` with spaces |
| QualityChecks.Clip | utils/quality_checks.py:62 | the result lies in [lo, hi], is `x` inside the range and the nearest bound outside it |
| QualityChecks.ClipMonotone | utils/quality_checks.py:62 | clipping preserves order |
| QualityChecks.Percent | utils/quality_checks.py:64 | 0 for a zero total, otherwise the value `p` with `p * total == 100 * x`; non-negative, at most 100 when `x <= total` |
| QualityChecks.PercentAdds | utils/quality_checks.py:64 | percentages of the same total add up |
| QualityChecks.ExtractExcerpt | utils/quality_checks.py:66-70 | the excerpt has no newline, is at most the match plus 28 characters on each side, and is that window of the text with newlines replaced |
| QualityChecks.WordCounts | utils/quality_checks.py:83-84 | one word count per piece |
| QualityChecks.OrZero | utils/quality_checks.py:83-84 | never empty; the list itself when it is not empty |
| QualityChecks.ParagraphMetricsOf | utils/quality_checks.py:84-89 | mean and variance are non-negative, both percentages lie in [0, 100] and add up to at most 100 |
| QualityChecks.ShortAndLongDisjoint | utils/quality_checks.py:88-89 | no paragraph counts as both short and long |
| QualityChecks.StartsOf | utils/quality_checks.py:92-96 | at most one opening per sentence |
| QualityChecks.SentenceStarts | utils/quality_checks.py:92-96 | the loop collects the lowered first word of each sentence that has one, as the reference definition `StartsOf` |
| QualityChecks.ShareSquares | utils/quality_checks.py:99 | the sum of squared shares is non-negative |
| QualityChecks.ShareSquaresBound | utils/quality_checks.py:99 | the sum of squared shares is at most the summed share |
| QualityChecks.HhiInUnitInterval | utils/quality_checks.py:99 | shares totalling at most 1 and led by a positive one square-sum into (0, 1] |
| QualityChecks.ShareSquaresOfPrefix | utils/quality_checks.py:98-99 | keeping fewer entries can only lower the sum |
| QualityChecks.StartHhi | utils/quality_checks.py:97-99 | the concentration index is 0 without openings and in (0, 1] otherwise |
| QualityChecks.StartHhiTopFive | utils/quality_checks.py:97-99 | the index sums over the five most common openings only, so it is at most the index over all of them and equals it with five or fewer distinct openings |
| QualityChecks.StartHhiOfOneOpening | utils/quality_checks.py:97-99 | when every sentence opens with the same word the index is 1 |
| QualityChecks.MostCommonOfOneKey | utils/quality_checks.py:97-98 | one repeated opening is the single most common entry, with the full count |
| QualityChecks.CountIn | utils/quality_checks.py:102 | a lexicon count never exceeds the number of words |
| QualityChecks.Balance | utils/quality_checks.py:136 | the label is one of neutral, leaning positive, leaning critical |
| QualityChecks.BalanceSwaps | utils/quality_checks.py:136 | neutral exactly when the counts differ by at most 2; swapping the counts swaps the two leaning labels |
| QualityChecks.SentimentOf | utils/quality_checks.py:132-137 | both counts are at most the number of words |
| QualityChecks.ContentTokens | utils/quality_checks.py:106 | no stopword survives, never more tokens than words |
| QualityChecks.Frequent | utils/quality_checks.py:110-115 | an entry is kept exactly when it is in the list and passes the count and word-number thresholds |
| QualityChecks.KeepFrequent | utils/quality_checks.py:110-115 | one loop over a `most_common(30)` list keeps the entries of `Frequent`, in order |
| QualityChecks.RepeatedPhrases | utils/quality_checks.py:106-116 | the two loops and the sort compute the reference definition `Repeated` |
| QualityChecks.RepeatedEntries | utils/quality_checks.py:106-116 | `repeated` is sorted by count and then phrase length, has at most 60 entries, and each is a frequent top bigram (count at least 3) or trigram (count at least 2) with its true count |
| QualityChecks.ExcessRepeats | utils/quality_checks.py:166 | the excess repeats never exceed the summed counts |
| QualityChecks.FlagsFor | utils/quality_checks.py:121-122 | one flag per match, in match order, naming the pattern and holding the match's excerpt |
| QualityChecks.BoilerFlagsOf | utils/quality_checks.py:119-122 | one flag per match of every pattern |
| QualityChecks.BoilerFlagsShape | utils/quality_checks.py:119-122 | every flag names one of the patterns and no excerpt contains a newline |
| QualityChecks.BoilerplateFlags | utils/quality_checks.py:119-122 | the nested loops compute the reference definition `BoilerFlagsOf` |
| QualityChecks.AppendFlags | utils/quality_checks.py:121-122 | the inner loop appends exactly the pattern's flags |
| QualityChecks.HeadingsOf | utils/quality_checks.py:143-145 | the FAQ indicator is 0 or 1 |
| QualityChecks.EeatOf | utils/quality_checks.py:148-153 | each E-E-A-T signal is 0 or 1 |
| QualityChecks.EeatScore | utils/quality_checks.py:154 | the score is a multiple of 25 between 0 and 100; 100 exactly with all four signals, 0 exactly with none |
| QualityChecks.InfoGainPoints | utils/quality_checks.py:157-162 | at most five points |
| QualityChecks.CountInfoGain | utils/quality_checks.py:157-162 | the five conditional increments count the searches that find something |
| QualityChecks.InfoGainScore | utils/quality_checks.py:163 | the score lies in [0, 100] and is 20 points per signal |
| QualityChecks.FluffDensity | utils/quality_checks.py:166-167 | non-negative; below 100 words the divisor is 1, so the density is 100 times the fluff units |
| QualityChecks.HhiPenalty | utils/quality_checks.py:172 | in [0, 40], and 0 when the index is at most 0.2 |
| QualityChecks.PassivePenalty | utils/quality_checks.py:173 | in [0, 30] |
| QualityChecks.FluffPenalty | utils/quality_checks.py:174 | in [0, 30] |
| QualityChecks.LongSentencePenalty | utils/quality_checks.py:175 | 10 exactly when sentences average more than 28 words, else 0 |
| QualityChecks.SensoryBonus | utils/quality_checks.py:178 | in [0, 20] |
| QualityChecks.VocabularyBonus | utils/quality_checks.py:179 | in [0, 20] |
| QualityChecks.InfoGainBonus | utils/quality_checks.py:180 | in [0, 20] |
| QualityChecks.StyleScore | utils/quality_checks.py:177-183 | the human-style score lies in [0, 100] |
| QualityChecks.HumanStyleScore | utils/quality_checks.py:177-183 | the step-by-step updates of `base_score` and the clamp compute `StyleScore`, in [0, 100] |
| QualityChecks.StyleScoreNeutral | utils/quality_checks.py:177-183 | with no signal either way the score is 50 |
| QualityChecks.StyleScoreRisesWithSensory | utils/quality_checks.py:178 | more sensory vocabulary never lowers the score |
| QualityChecks.StyleScoreFallsWithPassive | utils/quality_checks.py:173-181 | more passive voice never raises the score |
| QualityChecks.NothingRepeatedWithoutWords | utils/quality_checks.py:106-116 | no words, no repeated phrase |
| QualityChecks.EmptyTextScore | utils/quality_checks.py:73-183 | on the empty text the human-style score is the neutral 50, for any engine under which none of the analyser's own patterns matches the empty string (none of them can) |
| QualityChecks.EmptyTextLengths | utils/quality_checks.py:83-89 | on the empty text the lengths are `[0]`: mean sentence length 0 and 100% short paragraphs |
| QualityChecks.Rank | utils/quality_checks.py:224-245 | each tip has one of eleven positions |
| QualityChecks.TipAt | utils/quality_checks.py:224-245 | the tip at position `k` has rank `k` |
| QualityChecks.AddTipIf | utils/quality_checks.py:224-245 | one conditional append keeps the tips decided for every earlier check and decides this one |
| QualityChecks.BuildTips | utils/quality_checks.py:221-246 | a tip is given exactly when its threshold holds, in check order without repeats, at most eleven |
| QualityChecks.QualityReport | utils/quality_checks.py:73-219 | every field of the report is the reference function of the text (counts, lengths, openings, ratios, flags, top-15 repeated phrases, sentiment, headings, E-E-A-T, scores), and the tips are exactly the due ones in check order |
| Keywords.MarkerAt | utils/keywords.py:28 | a marker starts at a '\|' and its digit group is non-empty, all decimal digits, and maximal (greedy `\d+`) |
| Keywords.FindMarkerFinds | utils/keywords.py:28 | what the search returns is a marker at the position it reports |
| Keywords.FirstMarkerAt | utils/keywords.py:28 | the search skips every position before the first '\|' |
| Keywords.MinimumOf | utils/keywords.py:31 | the minimum is at least 1 |
| Keywords.ParseLine | utils/keywords.py:24-34 | a blank line yields nothing; a yielded keyword is non-empty and stripped and its minimum is at least 1 |
| Keywords.ParsedLines | utils/keywords.py:23-34 | every pair has a non-empty keyword and a minimum of at least 1 |
| Keywords.ParseRequiredKeywords | utils/keywords.py:14-35 | the loop over the lines returns the pairs of the reference definition `RequiredKeywords`, each with a non-empty keyword and a minimum of at least 1 |
| Keywords.ParseOne | utils/keywords.py:24-34 | the body of the loop for one line computes `ParseLine` |
| Keywords.ParsedLinesAppend | utils/keywords.py:23-34 | the pairs of two blocks of lines are those of each, in order |
| Keywords.PlainLine | utils/keywords.py:27-34 | a non-blank line without '\|' is its own stripped keyword with minimum 1 |
| Keywords.ParseFormattedLine | utils/keywords.py:16-34 | the documented line `keyword \| min=N` parses back to the keyword with minimum max(1, N) |
| Keywords.RequiredKeywordsOfOneLine | utils/keywords.py:14-35 | a one-line specification in the documented format yields exactly that pair |
| Keywords.CountMatchesBound | utils/keywords.py:50 | non-overlapping matches of a non-empty phrase never cover more than the text |
| Keywords.CountMatchesOfCopies | utils/keywords.py:50 | a phrase repeated `k` times holds exactly `k` matches of itself |
| Keywords.CountMatchesIgnoresCase | utils/keywords.py:50 | lowering the phrase's ASCII letters does not change the count |
| Keywords.CountOccurrences | utils/keywords.py:37-50 | an empty text or phrase counts 0; otherwise the count is that of the phrase's matches after diacritics are stripped from both |
| Keywords.CheckOf | utils/keywords.py:55-56 | an item keeps its keyword and minimum, and is ok exactly when found at least the minimum number of times |
| Keywords.Checks | utils/keywords.py:54-57 | one consistent item per required pair, in order, with that pair's keyword and minimum |
| Keywords.ShortfallsAreFailures | utils/keywords.py:58-59 | `missing` lists exactly the failing items, each needing a positive number of further uses |
| Keywords.NoShortfallIffAllMet | utils/keywords.py:60 | nothing is missing exactly when every keyword reached its minimum |
| Keywords.EnforceReport | utils/keywords.py:52-61 | the loop's items and missing list are those of the reference definitions, and `ok` holds exactly when every keyword reached its minimum |
| Places.Slug | utils/places_provider.py:16-21 | the slug is never empty ("x" is the fallback), uses only a-z, 0-9, U+0600–U+06FF and '-', has no '-' at either end and no "--" |
| Places.DashRuns | utils/places_provider.py:20-21 | after the two substitutions only slug characters and single dashes remain |
| Places.SlugOfSlug | utils/places_provider.py:16-21 | a slug whose decomposition is itself is its own slug |
| Places.DigitsOf | utils/places_provider.py:25 | only decimal digits remain, never more characters than the input |
| Places.DigitsOfAppend | utils/places_provider.py:25 | the digits of a concatenation are the digits of each part, in order |
| Places.Last4Digits | utils/places_provider.py:23-26 | "" when the phone has fewer than four digits, otherwise exactly the last four of its digits |
| Places.Last4OfNumberEndingIn | utils/places_provider.py:23-26 | whatever precedes them, four digits at the end of a number are its last four digits |
| Places.MapsUrlFromId | utils/places_provider.py:35-38 | the URL is the place-id prefix followed by a piece with no '/' |
| Places.MapsUrlOfPlaceName | utils/places_provider.py:35-38 | "places/ID" and a bare ID both give the URL of ID |
| Places.PriceBand | utils/places_provider.py:41-50 | levels 0 to 4 get their `PRICE_BANDS` entry |
| Places.PriceBandKnownIff | utils/places_provider.py:41-50 | a band other than "غير محدد" comes exactly from levels 0 to 4, and from one level only |
| Places.DayColon | utils/places_provider.py:62-66 | a match of the day pattern gives the position of an ASCII or full-width colon |
| Places.HoursOf | utils/places_provider.py:62-63 | the hours are shorter than the line they come from |
| Places.HoursAsWritten | utils/places_provider.py:63-67 | cutting at the first ASCII colon never lengthens the line |
| Places.ThursdayLineWithColon | utils/places_provider.py:62-63 | "الخميس", a colon of either kind and the hours form an Arabic Thursday line whose hours are those hours |
| Places.FullWidthColonKeepsDayName | utils/places_provider.py:62-63 | with only the full-width colon, the code as written returns the whole line, day name included, while the matched colon gives the hours |
| Places.AsciiColonAgrees | utils/places_provider.py:62-63 | with an ASCII colon after the day name, the code as written and the corrected cut agree on the hours |
| Places.FirstWhere | utils/places_provider.py:61-67 | the index found satisfies the test and no earlier line does; no index means no line does |
| Places.FirstWhereIs | utils/places_provider.py:61-67 | the first line that satisfies the test is the one found |
| Places.ThursdayRange | utils/places_provider.py:53-68 | "غير متاح" when no line, Arabic or English, is a Thursday line, in particular for no lines at all |
| Places.ArabicLineWins | utils/places_provider.py:61-63 | the first Arabic Thursday line decides, wherever English lines stand |
| Places.EnglishLineIsFallback | utils/places_provider.py:65-67 | with no Arabic line, the first English Thursday line decides |
| Places.FindDay | utils/places_provider.py:61-63 | the search loop returns the first line satisfying the test, or none |
| Places.ExtractThursdayRange | utils/places_provider.py:53-68 | the empty check and the two search loops compute `ThursdayRange` |
| Places.NoWordsIffBlank | utils/places_provider.py:81 | `split()` gives no word exactly when the string is all whitespace |
| Places.NameHit | utils/places_provider.py:80-81 | the name hit is 0 or 1, and 0 for an empty or blank keyword |
| Places.NameHitAgrees | utils/places_provider.py:81 | the code as written fails exactly on a non-empty all-whitespace keyword and gives `NameHit` everywhere else |
| Places.BlankKeywordRaises | utils/places_provider.py:81 | the keyword " " fails as written and gives no hit once corrected |
| Places.NameHitOfFirstWord | utils/places_provider.py:81 | with first word `w`, the hit says whether `w` occurs in the name, ignoring case |
| Places.Hits | utils/places_provider.py:79-88 | the name hit is `NameHit`; the type hit is 0 or 1, and 1 exactly when some synonym entry named in the keyword lists one of the place's types |
| Places.PlaceScoreWeights | utils/places_provider.py:91-99 | a name hit adds 0.8, a type hit 0.5; a missing phone or website costs 0.2 each; a negative count counts as none; an unrated place scores the same whatever its count |
| Places.ThreeDigits | utils/places_provider.py:105 | three digits whose value is the number |
| Places.Thousandths | utils/places_provider.py:105 | the text is non-empty, has no ',' and starts with '-' exactly for negative values |
| Places.ThousandthsRoundTrip | utils/places_provider.py:105 | reading a written coordinate back gives the coordinate |
| Places.GeoTile | utils/places_provider.py:102-105 | the tile is "" exactly when a coordinate is missing |
| Places.GeoTileInjective | utils/places_provider.py:102-105 | distinct coordinates never share a tile |
| Places.Locator | utils/places_provider.py:111-114 | the phone's last four digits, else the domain, else the tile |
| Places.SameKeyIff | utils/places_provider.py:110-114 | two places share a key exactly when their names share a slug and they share a locator |
| Places.KeySplits | utils/places_provider.py:114 | joining a slug and a locator with '|' keeps both recoverable |
| Places.StrongerAgrees | utils/places_provider.py:120 | the tuple comparison as written fails exactly on equal counts with one rating missing, and agrees with `Stronger` elsewhere |
| Places.UnratedTieRaises | utils/places_provider.py:120 | 120 reviews rated 4.5 against 120 unrated fails as written both ways; corrected, the rated one is stronger |
| Places.StrongerOrder | utils/places_provider.py:120 | `Stronger` is irreflexive and transitive, and anything stronger than `c` is stronger than whatever is not |
| Places.Bucketed | utils/places_provider.py:108-121 | every held position is that of a record with that key, and the insertion order lists exactly the held keys |
| Places.BucketedHoldsEveryKey | utils/places_provider.py:115-117 | every key met has a bucket |
| Places.BucketedOrder | utils/places_provider.py:115-116 | the insertion order is the input's keys with repeats dropped |
| Places.WithinReplaced | utils/places_provider.py:120-121 | a record stronger than the one held for its key is stronger than every earlier record of that key and weaker than none |
| Places.StrongestOfLastKey | utils/places_provider.py:115-121 | once an item is absorbed, the record held for its key is the strongest of that key so far |
| Places.BucketedStrongest | utils/places_provider.py:115-121 | after any prefix of the items, each held record is stronger than no other record of its key in that prefix, and stronger than every earlier one |
| Places.KeptFromEach | utils/places_provider.py:115-122 | output record `j` is an input record whose key is the `j`-th distinct key, and it is the strongest of that key |
| Places.DedupedPlacesKeys | utils/places_provider.py:107-122 | the output's keys are the input's distinct keys, in order of first appearance: pairwise distinct and never more records than the input |
| Places.DedupedPlacesKept | utils/places_provider.py:107-122 | every output record is an input record, the strongest of its key and the earliest among equals |
| Places.Absorb | utils/places_provider.py:115-121 | one step of the loop takes the buckets from the first `i` records to the first `i + 1` |
| Places.DedupePlaces | utils/places_provider.py:107-122 | the loop over the items returns `DedupedPlaces` |
| Places.KeptIsBucketValues | utils/places_provider.py:122 | the values of the dict after the loop are the records `Kept` describes, in insertion order |
| Places.UrlsOf | utils/places_provider.py:230-231 | a place contributes no empty URL |
| Places.UrlsOfMembers | utils/places_provider.py:230-231 | a URL comes from a place exactly when it is its non-empty Maps URL or website |
| Places.PlaceUrlsNonEmpty | utils/places_provider.py:229-231 | the first loop collects no empty URL |
| Places.PlaceUrlsMembers | utils/places_provider.py:229-231 | a URL is collected exactly when it is the non-empty Maps URL or website of some place |
| Places.PlaceUrlsAt | utils/places_provider.py:229-231 | place `i`'s URLs stand between the URLs of the places before and after it |
| Places.ReferencesFromPlaces | utils/places_provider.py:227-237 | the two loops return the collected URLs with repeats dropped |
| Places.ReferencesContents | utils/places_provider.py:227-237 | the references have no empty and no repeated URL, and hold exactly the places' Maps URLs and websites |
| Places.GoogleUrlFirst | utils/places_provider.py:229-231 | a place's Maps URL is first collected before its website, unless an earlier place brought the website |
| Places.GoogleUrlBeforeWebsite | utils/places_provider.py:227-237 | in the references, a place's Maps URL comes before its website, unless an earlier place brought the website |
| Places.FactLine | utils/places_provider.py:254 | a fact line is non-empty and starts with '-' |
| Places.AreaOf | utils/places_provider.py:248-253 | the area is "" or stripped, and holds no Arabic comma |
| Places.SplitOnFirst | utils/places_provider.py:251 | the split cuts at the first separator |
| Places.SplitThree | utils/places_provider.py:251 | an address of three comma-separated pieces splits into exactly those pieces |
| Places.AreaOfThreeParts | utils/places_provider.py:249-253 | for "street، area، city" the area is the middle piece, stripped |
| Places.AreaOfOnePiece | utils/places_provider.py:251-253 | an address without an Arabic comma has no area |
| Places.FactsShape | utils/places_provider.py:256 | the block is "—" exactly when there are no places; one place gives its own line |
| Places.FactsMarkdown | utils/places_provider.py:239-256 | the loop appending one line per place, then the join, computes `Facts` |
| HumanCheck.Sentences | utils/human_check.py:4-5 | every sentence is non-empty and has no whitespace at either end |
| HumanCheck.SentencesHaveNoEnd | utils/human_check.py:4-5 | no sentence contains '.', '!', '?', the Arabic question mark or a newline |
| HumanCheck.SentencesSplitAt | utils/human_check.py:5 | a sentence-ending character separates the sentences before it from those after it |
| HumanCheck.OneSentence | utils/human_check.py:5 | a non-blank text without a sentence end is one sentence, itself stripped |
| HumanCheck.Share | utils/human_check.py:16-22 | a ratio `part / (whole or 1)` lies in [0, 1] and is 0 for an empty whole |
| HumanCheck.ShareIsOneIff | utils/human_check.py:16-22 | the ratio is 1 exactly when the whole is non-empty and the part is all of it |
| HumanCheck.RepRatio | utils/human_check.py:16-17 | the repetition ratio lies in [0, 1], and is 1 for a text with no word |
| HumanCheck.RepRatioZeroIff | utils/human_check.py:16-17 | the repetition ratio is 0 exactly when the text has words and none repeats |
| HumanCheck.OverlapCount | utils/human_check.py:21 | the overlap count never exceeds the number of words |
| HumanCheck.OverlapCountAllIff | utils/human_check.py:21 | every word is counted exactly when every word is a source token |
| HumanCheck.OverlapCountNoneIff | utils/human_check.py:21 | no word is counted exactly when no word is a source token |
| HumanCheck.SrcOverlap | utils/human_check.py:18-22 | the source overlap lies in [0, 1] and is 0 without sources |
| HumanCheck.SrcOverlapOneIff | utils/human_check.py:19-22 | with sources, the overlap is 1 exactly when the text has words and all are source tokens |
| HumanCheck.Score | utils/human_check.py:25-26 | the clamped score lies in [0, 100] |
| HumanCheck.ScoreMonotone | utils/human_check.py:25-26 | more sentence-length variance, less repetition and less overlap never lower the score |
| HumanCheck.ClampNeverActs | utils/human_check.py:25-26 | for ratios in [0, 1] and a non-negative variance the clamp never acts and the score is at most 80 |
| HumanCheck.Suggestions | utils/human_check.py:28-31 | each hint appears exactly when its threshold is crossed, in the source's order, at most three |
| HumanCheck.InCheckOrderBound | utils/human_check.py:28-31 | hints in check order, each of the three at most once, number at most three |
| HumanCheck.SentenceLengths | utils/human_check.py:14 | one word count per sentence |
| HumanCheck.HumanLikenessReport | utils/human_check.py:12-40 | the report's counts, ratios and average are those of the reference functions, the score is in [0, 100], each hint appears exactly when its threshold is crossed, and the hints are in check order without repeats or other strings, at most three |
| HumanCheck.BlankTextReport | utils/human_check.py:12-26 | a blank text has no sentence, repetition ratio 1 and score 30 |
| Stats.Mean | utils/human_check.py:9 | the mean of a non-empty list |
| Stats.Variance | utils/human_check.py:7-10 | the population variance is non-negative and 0 for an empty list |
| Stats.VarianceOfConstant | utils/human_check.py:7-10 | the variance of a constant list is 0 |
| References.RefOfLine | utils/references.py:15-27 | a blank line gives nothing; a kept line is a URL with an http(s) scheme and a non-empty host |
| References.WithScheme | utils/references.py:19-20 | a URL with an http(s) scheme (case-insensitive) is kept, any other gets "https://" in front |
| References.CandidatesAreFixed | utils/references.py:14-27 | every reference a line yields normalises to itself again |
| References.NormalizedIsFixed | utils/references.py:15-27 | normalising a normalised reference changes nothing |
| References.NormalizeRefs | utils/references.py:11-31 | the loop with its `seen` set returns the first occurrence of each line's reference in line order (`Dedup` of the candidates), without duplicates |
| References.CandidatesStep | utils/references.py:14-27 | one more line adds its reference exactly when the stripped line is non-empty and, schemed, has a non-empty host |
| References.NormalizedRefsAreUrls | utils/references.py:11-31 | every returned reference has an http(s) scheme and a non-empty host |
| References.BareHostGetsScheme | utils/references.py:19-20 | a bare host such as "example.com" is kept as "https://example.com" |
| References.CitationMap | utils/references.py:60-62 | the citation numbers are exactly 1 to the number of URLs |
| References.CitationMapRoundTrip | utils/references.py:60-62 | reading the map from 1 upwards gives back the URL list |
| References.CitationMapValues | utils/references.py:60-62 | citation `i` maps to the `i`-th URL |
| References.ReferencesMd | utils/references.py:48-58 | the result is "—" exactly when there is no URL |
| WpClient.KeepWhere | utils/wp_client.py:14 | the character-class deletion keeps only characters of the class, never lengthens the string |
| WpClient.KeepWhereAll | utils/wp_client.py:14 | a string made only of class characters passes the deletion unchanged |
| WpClient.KeepWhereDrops | utils/wp_client.py:14 | a character outside the class is deleted wherever it stands |
| WpClient.SingleDashes | utils/wp_client.py:14-15 | after the deletion and the collapsing of `-{2,}`, only slug characters and '-' remain and no two dashes are adjacent |
| WpClient.Slugify | utils/wp_client.py:10-16 | the result is always a slug: non-empty, only a-z, 0-9, Arabic-block characters and single inner dashes, no dash at either end |
| WpClient.SlugifyOfSlug | utils/wp_client.py:10-16 | slugifying a slug gives it back (idempotence on its own range) |
| WpClient.NothingToKeepGivesPost | utils/wp_client.py:16 | a title with no character the slug can keep gives the fallback "post" |
| WpClient.SlugifyDeletesForeign | utils/wp_client.py:13-14 | a non-space foreign character between two words is deleted rather than turned into a dash |
| WpClient.NormalizeBase | utils/wp_client.py:24-30 | the REST base always ends in "/wp-json/wp/v2" |
| WpClient.NormalizeBaseIdempotent | utils/wp_client.py:24-30 | normalising an already normalised base changes nothing |
| WpClient.NormalizeBaseCases | utils/wp_client.py:24-30 | a base already ending in the API root (after trailing '/' are stripped) is kept, a bare "/wp-json" is completed with "/wp/v2", anything else gets the whole root |
| WpClient.Client.constructor | utils/wp_client.py:23-30 | the client's base is the normalised base URL |
| CompetitorAnalysis.Tokens | utils/competitor_analysis.py:9 | every token is three or more characters of the class Arabic letters / ASCII letters / digits |
| CompetitorAnalysis.TokensSplitAt | utils/competitor_analysis.py:9 | a character outside the class separates the tokens before it from those after it |
| CompetitorAnalysis.TokensOfOneRun | utils/competitor_analysis.py:9 | a single run of class characters is one token exactly when it has at least three characters |
| CompetitorAnalysis.LongRunsMembers | utils/competitor_analysis.py:9 | the kept runs are exactly the runs of length three or more |
| CompetitorAnalysis.WordsAreLowered | utils/competitor_analysis.py:7-10 | every collected word has at least three characters and no capital letter |
| CompetitorAnalysis.NonDigitKeys | utils/competitor_analysis.py:12 | no all-digit word survives the filter |
| CompetitorAnalysis.Keywords | utils/competitor_analysis.py:11-14 | at most fifteen keywords, none of them all digits |
| CompetitorAnalysis.KeywordsAreMostCommon | utils/competitor_analysis.py:11-14 | every keyword is among the twenty most common words, and no word left out of them occurs more often than a keyword |
| CompetitorAnalysis.KeywordsByFrequency | utils/competitor_analysis.py:11-14 | every keyword is one of the words, and an earlier keyword occurs at least as often as a later one |
| CompetitorAnalysis.SingleWordIsKeyword | utils/competitor_analysis.py:11-14 | a text list made of one repeated non-digit word yields exactly that keyword |
| CompetitorAnalysis.AnalyzeCompetitors | utils/competitor_analysis.py:6-14 | the loop over the texts builds the same analysis as the reference definition `AnalysisOf` |
| CompetitorAnalysis.AnalysisOf | utils/competitor_analysis.py:14 | at most fifteen keywords and an empty gap list |
| CompetitorAnalysis.ExtractGap | utils/competitor_analysis.py:16-17 | the gaps when the analysis has them, otherwise the empty list |
| CompetitorAnalysis.NoGapsYet | utils/competitor_analysis.py:13-17 | the gaps of any analysis the module produces are empty |
| App.FilterMap | app.py:185-190 | what is kept all passes the test, never more items than lines |
| App.FilterMapMembers | app.py:185-190 | an item is kept exactly when it passes the test and is the image of some line |
| App.UrlLines | app.py:183-191 | every kept line starts with "http://" or "https://" |
| App.UrlLinesMembers | app.py:183-191 | a URL is kept exactly when it is the stripped form of some line and starts with an http(s) scheme; what is kept is stripped |
| App.ParseUrlsBlock | app.py:183-191 | the loop over the lines returns the reference list `UrlLines` of the block's lines |
| App.UrlsOfFirstLine | app.py:185 | a newline separates the first line's URL from those of the remaining lines |
| App.NormalizeJsonOrText | app.py:193-206 | parsed JSON comes with empty text; otherwise the text is the stripped input |
| App.NormalizeCases | app.py:193-206 | blank input gives (None, ""); text not opening with '[' or '{' is never parsed; a value comes back exactly when the stripped text opens with a bracket and parses |
| App.SnippetOf | app.py:333-336 | the digest keeps the URL, the title stripped of surrounding whitespace, and the text's prefix of exactly 1200 characters, or the whole text when it is no longer |
| App.Snippets | app.py:331-336 | the loop over the sources builds one digest per source, in order |
| App.UserParts | app.py:319-337 | between two and six parts |
| App.OnlyTopicPart | app.py:320-321 | a part starting with the topic label exists exactly when a topic is given, and it is the first part |
| App.OtherPartsLabelled | app.py:322-337 | every part after the topic's starts with one of the other labels |
| App.AreaPart | app.py:322-323 | the area part is present exactly when an area is given, right after the topic part if any |
| App.PromptOf | app.py:339-342 | two messages, the system prompt first and the user message second |
| App.BuildPrompt | app.py:313-342 | the conditional appends build the same messages as the reference definition `PromptOf` |
| App.Lookup | app.py:220-228 | an answer is served exactly when its key is stored and no more than `ttl` seconds old, and it is the stored value |
| App.AfterGet | app.py:220-228 | a lookup evicts its key exactly when the entry is stale and leaves every other key unchanged |
| App.SetThenGet | app.py:220-231 | an answer stored at `t` is served back unchanged at any time up to `t + ttl`, and the lookup removes nothing |
| App.SetThenExpire | app.py:220-231 | after `t + ttl` the stored answer is no longer served, and the lookup deletes it |
| App.LookupMonotone | app.py:220-228 | an answer served at some time is served, the same, at every earlier time |
| App.Cacher.constructor | app.py:216-218 | the time-to-live is the hours times 3600 and the cache starts empty |
| App.Cacher.Get | app.py:220-228 | returns `Lookup` of the old cache, and the new cache is `AfterGet` of the old |
| App.Cacher.Set | app.py:230-231 | the key's entry is replaced with one stamped now; every other key keeps its entry |
| Text.Strip | utils/references.py:15 | the stripped string has no whitespace at either end and is no longer than the input |
| Text.StripUnchanged | utils/references.py:15 | a string without whitespace at its ends is its own `strip()` |
| Text.SplitLines | utils/references.py:14 | no line holds a line break |
| Text.OneLine | utils/references.py:14 | a non-empty string without line breaks is a single line |
| Text.SplitWs | utils/human_check.py:14-16 | `split()` gives non-empty words without whitespace |
| Text.Runs | utils/competitor_analysis.py:9 | the runs are non-empty and made only of class characters |
| Text.RunsSplitAt | utils/competitor_analysis.py:9 | a character outside the class separates the runs before it from those after it |
| Text.ReplaceRuns | utils/wp_client.py:13 | a run replacement never lengthens the string, empties only the empty string, and leaves no class character but the replacement |
| Text.ReplaceRunsNoDoubles | utils/wp_client.py:15 | when the replacement is in the class, no two replacements are adjacent |
| Text.ReplaceRunsAppend | utils/wp_client.py:13 | the replacement splits after a character outside the class |
| Text.ReplaceRunsUnchanged | utils/wp_client.py:15 | a string whose class characters are lone replacement characters is unchanged |
| Text.TrimDashes | utils/wp_client.py:15 | `strip("-")` leaves no dash at either end and is a slice of the input |
| Text.TrimDashesSlug | utils/wp_client.py:15-16 | stripping dashes off slug characters and single dashes leaves a slug or nothing |
| Text.DigitsOfNatToString | utils/keywords.py:31 | `int(str(n)) == n`, and `str(n)` is all digits |
| Text.StrippedNonEmpty | utils/human_check.py:5 | the kept pieces are non-empty and stripped, never more than the parts |
| Urls.Scrub | utils/references.py:23 | no tab, carriage return or newline remains; a URL without them is unchanged |
| Urls.NetLoc | utils/references.py:23-24 | the network location holds no '/', '?', '#' and no deleted character |
| Urls.NetLocOfComposed | utils/references.py:23-24 | the network location of `scheme://host` followed by a path, query or fragment is the host |
| Urls.NoNetLocWithoutSlashes | utils/references.py:24-25 | a URL without '/' has an empty network location |
| Urls.Domain | utils/places_provider.py:28-33 | the domain is the lowered network location, or "" when the URL does not parse |
| Collections.Elements | utils/human_check.py:16 | `set(s)` holds exactly the sequence's elements, never more than its length |
| Collections.ElementsCountDistinct | utils/human_check.py:16 | the set is as large as the sequence exactly when no entry repeats |
| Collections.Dedup | utils/references.py:28-30 | the first occurrence of each element: the same elements, none repeated |
| Collections.DedupStep | utils/references.py:28-30 | one more element is appended when new and ignored when already seen |
| Collections.DedupKeepsFirstOccurrenceOrder | utils/places_provider.py:233-236 | kept values appear in the order of their first occurrence |
| Collections.DedupFirstIndexOrder | utils/references.py:28-30 | two values keep the relative order of their first occurrences after repeats are dropped |
| Collections.TallyFacts | utils/competitor_analysis.py:11 | a Counter holds distinct keys, exactly the input's, listed in the order they first occur, each with its multiplicity, totalling the input's length |
| Collections.TallyOfOneKey | utils/quality_checks.py:97 | one repeated key tallies to the single pair (key, length) |
| Collections.Insert | utils/quality_checks.py:116 | insertion adds exactly the new entry (as a multiset) and its count to the total |
| Collections.InsertSorted | utils/quality_checks.py:116 | inserting into a ranked list keeps it ranked |
| Collections.SortByRank | utils/quality_checks.py:116 | the sort returns a ranked permutation of its input |
| Collections.SortByRankStable | utils/quality_checks.py:116 | the sort is stable: of two distinct entries, an earlier one that ranks at least as high as a later one comes out first |
| Collections.MostCommonEntry | utils/competitor_analysis.py:11 | each `most_common` entry is a key of the input with its true count, at least one |
| Collections.SortedTiesInInputOrder | utils/competitor_analysis.py:11 | entries of equal count leave the sort in their input order |
| Collections.MostCommonTiesInOrder | utils/competitor_analysis.py:11 | `most_common` lists keys of equal count in the order they first occur in the input |
| Collections.MostCommonTop | utils/competitor_analysis.py:11 | `most_common(n)` keeps the n most common keys: when it leaves out a key of the input it holds n entries, each at least as frequent as that key |
| Collections.MostCommonShape | utils/competitor_analysis.py:11 | at most `n` entries, by non-increasing count, with counts totalling at most the input length; some entry when the input is non-empty |
| Collections.Present | utils/references.py:14-30 | never more values than inputs |
| Collections.PresentFixed | utils/references.py:14-30 | when `f` maps each of its results to itself, every present value is a fixed point |
| Collections.ConcatMapSplit | utils/places_provider.py:229-231 | the concatenation splits at any index |

## Left out

- Regular-expression searches of `quality_report` are not modelled. These are the boilerplate patterns, passive "تم", headings, FAQ, E-E-A-T and information-gain searches. `QualityChecks.QualityReport` receives the engine as a function giving the spans of the matches of a pattern, in order. Everything computed from those spans is modelled.
- `round(...)` in every report is left out, because it only presents floating-point values. Report fields are the exact values before rounding.
- `math.sqrt` (the `** 0.5` of the paragraph-length spread) is left out, because it is floating point. `QualityChecks.ParagraphMetricsOf` keeps the variance it is taken of.
- `math.log1p` in `place_score` is a parameter of `Places.PlaceScore`, because it is floating point. The weights around it are proved exactly.
- Floats are exact reals throughout, so overflow, NaN and rounding error are not modelled.
- `unicodedata.normalize("NFKD")` with the dropping of combining marks, used by `_slug`, `_slugify` and `strip_diacritics`, is a parameter (`decompose`, `stripDiacritics`), because it needs the Unicode tables. `str.lower()` and `re.IGNORECASE` are modelled on ASCII letters only.
- Places.Slug and WpClient.Slugify lower ASCII letters only, after `decompose`. A character outside ASCII whose Python lower case is an ASCII letter or digit would be kept by the source but turned into '-' by the model. Arabic letters have no case.
- Keywords.CountOccurrences folds case on ASCII letters only; Python's `re.IGNORECASE` also folds other scripts, such as Greek and Cyrillic.
- `json.loads` is a parameter of `App.NormalizeJsonOrText` (`None` where it raises), because JSON parsing is a library.
- `json.dumps(src_short, ensure_ascii=False, indent=2)` in `build_prompt` is the parameter `dumps` of `App.UserParts`, `App.OtherParts`, `App.PromptOf` and `App.BuildPrompt`, because JSON serialisation is a library. The model states only where its text goes in the prompt, not what it contains.
- Keywords.MarkerAt: the `\d+` group of the minimum marker accepts ASCII, Arabic-Indic (U+0660-U+0669) and extended Arabic-Indic (U+06F0-U+06F9) digits only. Python's `\d` and `int()` accept every Unicode decimal digit. For "kw | min=２" (full-width two) the source gives ("kw", 2), but the model finds no marker and keeps the whole line with minimum 1. The full Unicode digit table is left out because it depends on the Unicode version of the Python that runs the code.
- Places.DigitsOf: `re.sub(r"\D+", "", phone)` is modelled with the same three digit blocks, so digits of other scripts (Devanagari, full-width and so on) are dropped by the model and kept by the source.
- Places.Last4Digits inherits that restriction: a phone written only in such digits gives "" where the source gives its last four digits.
- `hash_messages` (SHA-256 of a JSON dump) is not part of this model, because it is a hash of a serialisation.
- `urlparse` is modelled only for `netloc` (`Urls.NetLoc`), with `None` for the ValueError on an unbalanced bracket. Port validation and IDNA checks are not modelled. Neither is the validation of a bracketed host as an IPv6 or IPvFuture address, which Python does since 3.11.4: `"https://[abc]"` raises there and is skipped by `normalize_refs`, but `References.RefOfLine` keeps it.
- The network clients are not part of this model, because they are HTTP I/O:
  - `PlacesClient`, `get_places_dataset` and `normalize_from_google`;
  - the `WPClient` HTTP methods, `_ensure_term` and `upsert_post`;
  - `fetch_title`;
  - `fetch_sources` and `call_llm` in `app.py`.
- Places.Place holds a record as `normalize_from_google` builds it. Coordinates are given as whole thousandths of a degree, so the rounding and `:.3f` formatting of `_geo_tile` start from already rounded values. A whole number of thousandths cannot be negative zero, so the model never writes Python's "-0.000": in the source a latitude of -0.0004 gives "-0.000" and one of 0.0001 gives "0.000", while the model sees 0 thousandths for both and gives them the same tile.
- References.ReferencesMd models `build_references_md` only as far as its "—" case. Each line needs a fetched page title and the date, so the line format is a parameter. It is required never to yield "—", because every line of the source starts with its number.
- `time.time()` in `LLMCacher` is the `now` parameter of `App.Cacher.Get` and `App.Cacher.Set`, because the clock is outside the program.
- `time.strftime` dates are left out, because they come from the clock.
- The Streamlit interface, the session state and the top-level generate flow of `app.py` are not part of this model, because they are UI glue.
- `None` for a string (`x or ""`) is modelled as the empty string. `None` for a number is an `Option`.
- Places.PlaceScore drops `open_now`, because its boost is the constant 0.
- `str.splitlines` treats "\r\n" as one break and breaks at the other line separators Python knows. All callers drop blank lines, so empty pieces do not matter.

## Findings

| source | as written | input that shows it | evidently intended | confidence | as-written member | corrected member |
|---|---|---|---|---|---|---|
| utils/places_provider.py:61-67 | a Thursday line is recognised with an ASCII or a full-width colon, but the hours are cut at the first ASCII colon | "الخميس：مغلق" (full-width colon, no ASCII colon) gives back the whole line, day name included, instead of "مغلق" | the hours are the text after the colon the pattern matched | not executed | Places.HoursAsWritten (shown by Places.FullWidthColonKeepsDayName) | Places.HoursOf, used by Places.ThursdayRange and Places.ExtractThursdayRange |
| utils/places_provider.py:81 | `kw.split()[0]` on a keyword that is non-empty but all whitespace | keyword " " raises IndexError | a blank keyword gives no name hit, like the empty one | not executed | Places.NameHitAsWritten (shown by Places.BlankKeywordRaises and Places.NameHitAgrees) | Places.NameHit, used by Places.Hits |
| utils/places_provider.py:120 | tuple comparison of `(reviews_count, rating)` with `rating` possibly None | two records with the same key and 120 reviews each, one rated 4.5 and one unrated, raise TypeError | a missing rating counts as 0, as the `get(..., 0)` default suggests | not executed | Places.StrongerAsWritten (shown by Places.UnratedTieRaises and Places.StrongerAgrees) | Places.Stronger, used by Places.Bucketed and Places.DedupePlaces |
