/**
 * The Google Places side of the application: the slug, phone and price
 * helpers, the Thursday opening hours, the query-hit flags, the keyed
 * de-duplication of place records and the reference and fact lists built
 * from them.
 */
module Places {
  import opened Text
  import opened Collections
  import opened Urls
  import References

  // ----- _slug -----

  /** Runs of anything but slug characters become '-', then runs of '-' shrink to one. */
  function DashRuns(t: string): (w: string)
    ensures forall i :: 0 <= i < |w| ==> IsSlugOrDash(w[i])
    ensures forall i :: 0 <= i < |w| - 1 ==> !(w[i] == '-' && w[i + 1] == '-')
  {
    var u := ReplaceRuns(t, IsNotSlugChar, '-');
    ReplaceRunsKeeps(u, IsDash, '-', IsSlugOrDash);
    ReplaceRunsNoDoubles(u, IsDash, '-');
    ReplaceRuns(u, IsDash, '-')
  }

  /**
   * `_slug(s)`. `decompose` stands for NFKD normalisation followed by dropping
   * combining marks. Whitespace runs become one space, the ends are stripped
   * and ASCII letters lowered; every run of other characters becomes one '-',
   * runs of '-' shrink to one, dashes at the ends go, and "x" replaces an empty
   * result.
   */
  function Slug(s: string, decompose: string -> string): (r: string)
    ensures IsSlug(r)
  {
    var w := DashRuns(Lower(Strip(ReplaceRuns(decompose(s), IsSpace, ' '))));
    TrimDashesSlug(w);
    var v := TrimDashes(w);
    if v == [] then assert IsSlugChar("x"[0]); "x" else v
  }

  /** A slug whose decomposition is itself is its own slug. */
  lemma SlugOfSlug(v: string, decompose: string -> string)
    requires IsSlug(v) && decompose(v) == v
    ensures Slug(v, decompose) == v
  {
    SlugHasNoSpace(v, ' ');
    StripUnchanged(v);
    SlugIsLower(v);
    DashRunsOfSlug(v);
    assert Span(v, IsDash) == 0;
    assert TrimLeft(v, IsDash) == v;
  }

  lemma DashRunsOfSlug(v: string)
    requires IsSlug(v)
    ensures DashRuns(v) == v
  {
    ReplaceRunsUnchanged(v, IsNotSlugChar, '-');
    ReplaceRunsUnchanged(v, IsDash, '-');
  }

  // ----- _last4_digits -----

  /** `re.sub(r"\D+", "", s)`: the decimal digits of `s`, in order. */
  function DigitsOf(s: string): (r: string)
    ensures |r| <= |s|
    ensures forall i :: 0 <= i < |r| ==> IsDecimalDigit(r[i])
    decreases |s|
  {
    if s == [] then []
    else DigitsOf(s[..|s| - 1]) + (if IsDecimalDigit(s[|s| - 1]) then [s[|s| - 1]] else [])
  }

  lemma {:induction false} DigitsOfAppend(a: string, b: string)
    ensures DigitsOf(a + b) == DigitsOf(a) + DigitsOf(b)
    decreases |b|
  {
    if b == [] {
      assert a + b == a;
    } else {
      var init := b[..|b| - 1];
      assert (a + b)[..|a + b| - 1] == a + init;
      DigitsOfAppend(a, init);
    }
  }

  lemma {:induction false} DigitsOfDigits(s: string)
    requires forall i :: 0 <= i < |s| ==> IsDecimalDigit(s[i])
    ensures DigitsOf(s) == s
    decreases |s|
  {
    if s != [] {
      DigitsOfDigits(s[..|s| - 1]);
    }
  }

  /** `_last4_digits(phone)`: the last four digits, or "" when there are fewer than four. */
  function Last4Digits(phone: string): (r: string)
    ensures |DigitsOf(phone)| < 4 ==> r == []
    ensures |DigitsOf(phone)| >= 4 ==> |r| == 4 && EndsWith(DigitsOf(phone), r)
  {
    if phone == [] then ""
    else
      var d := DigitsOf(phone);
      if |d| >= 4 then d[|d| - 4..] else ""
  }

  /** Whatever the number looks like, four digits at its end are its last four digits. */
  lemma Last4OfNumberEndingIn(prefix: string, four: string)
    requires |four| == 4 && forall i :: 0 <= i < 4 ==> IsDecimalDigit(four[i])
    ensures Last4Digits(prefix + four) == four
  {
    DigitsOfAppend(prefix, four);
    DigitsOfDigits(four);
    var d := DigitsOf(prefix + four);
    assert d[|d| - 4..] == four;
  }

  // ----- _google_maps_url_from_id -----

  const MAPS_PLACE_URL: string := "https://www.google.com/maps/place/?q=place_id:"

  /** `_google_maps_url_from_id(resource_name)`: the Maps URL of the last '/'-separated piece of the resource name. */
  function MapsUrlFromId(resourceName: string): (r: string)
    ensures StartsWith(r, MAPS_PLACE_URL)
    ensures forall i :: |MAPS_PLACE_URL| <= i < |r| ==> r[i] != '/'
  {
    var parts := SplitOn(resourceName, '/');
    MAPS_PLACE_URL + parts[|parts| - 1]
  }

  /** "places/ID" and a bare ID give the URL of that ID. */
  lemma MapsUrlOfPlaceName(id: string)
    requires forall i :: 0 <= i < |id| ==> id[i] != '/'
    ensures MapsUrlFromId("places/" + id) == MAPS_PLACE_URL + id
    ensures MapsUrlFromId(id) == MAPS_PLACE_URL + id
  {
    assert "places/" + id == "places" + ['/'] + id;
    SplitOnFirst("places", id, '/');
    SplitOnNone(id, '/');
  }

  // ----- price_band -----

  const UNKNOWN_PRICE: string := "غير محدد"

  /** `PRICE_BANDS`, indexed by price level 0..4. */
  const PRICE_BANDS: seq<string> := ["مجاني/اقتصادي", "≤ 50 ر.س", "50 – 75 ر.س", "75 – 120 ر.س", "120+ ر.س"]

  /** `price_band(level)`: the band of levels 0 to 4, "غير محدد" for no level or any other. */
  function PriceBand(level: Option<int>): (r: string)
    ensures level.Some? && 0 <= level.value < |PRICE_BANDS| ==> r == PRICE_BANDS[level.value]
  {
    match level
    case None => UNKNOWN_PRICE
    case Some(l) => if 0 <= l < |PRICE_BANDS| then PRICE_BANDS[l] else UNKNOWN_PRICE
  }

  /** A band is named exactly for the levels 0 to 4, and distinct levels get distinct bands. */
  lemma PriceBandKnownIff(level: Option<int>, other: Option<int>)
    ensures PriceBand(level) != UNKNOWN_PRICE <==> level.Some? && 0 <= level.value <= 4
    ensures PriceBand(level) != UNKNOWN_PRICE && PriceBand(level) == PriceBand(other) ==> level == other
  {
    var b := PRICE_BANDS;
    assert b[0][0] != UNKNOWN_PRICE[0] && b[1][0] != UNKNOWN_PRICE[0] && b[4][0] != UNKNOWN_PRICE[0];
    assert b[2][0] == '5' && b[3][0] == '7' && UNKNOWN_PRICE[0] != '5' && UNKNOWN_PRICE[0] != '7';
    assert b[4][0] == '1' && b[4] != b[2] && b[4] != b[3] && b[2] != b[3];
    assert b[0][0] != b[1][0] && b[0][0] != '5' && b[0][0] != '7' && b[0][0] != '1';
    assert b[1][0] != '5' && b[1][0] != '7' && b[1][0] != '1';
  }

  // ----- extract_thursday_range -----

  const NOT_AVAILABLE: string := "غير متاح"
  const THURSDAY_AR: string := "الخميس"
  const THURSDAY_EN: string := "thursday"

  /** The colons the day pattern accepts: ASCII ':' and full-width U+FF1A. */
  predicate IsColon(c: char) { c == ':' || c == '\U{ff1a}' }

  /** Whether character `c` matches pattern character `d`, exactly or ignoring case. */
  predicate CharMatches(c: char, d: char, ignoreCase: bool) {
    if ignoreCase then MatchesLetter(c, d) else c == d
  }

  /** The day name at position `a`, character by character. */
  predicate NameAt(s: string, a: nat, day: string, ignoreCase: bool)
    decreases |day|
  {
    a + |day| <= |s| && (day == [] || (CharMatches(s[a], day[0], ignoreCase) && NameAt(s, a + 1, day[1..], ignoreCase)))
  }

  lemma {:induction false} NameAtExact(s: string, a: nat, day: string)
    requires a + |day| <= |s| && s[a..a + |day|] == day
    ensures NameAt(s, a, day, false)
    decreases |day|
  {
    if day != [] {
      assert s[a + 1..a + 1 + |day[1..]|] == day[1..];
      NameAtExact(s, a + 1, day[1..]);
    }
  }

  /** `re.match(r"^\s*DAY\s*[:：]", s)`: the position of the matched colon, if the pattern matches. */
  function DayColon(s: string, day: string, ignoreCase: bool): (r: Option<nat>)
    ensures r.Some? ==> r.value < |s| && IsColon(s[r.value])
  {
    var a := SkipSpaces(s, 0);
    if !NameAt(s, a, day, ignoreCase) then None
    else
      var b := SkipSpaces(s, a + |day|);
      if b < |s| && IsColon(s[b]) then Some(b) else None
  }

  /** Whether a weekday description is the Arabic Thursday line. */
  predicate IsArabicThursday(ln: string) {
    DayColon(Strip(ln), THURSDAY_AR, false).Some?
  }

  /** Whether a weekday description is the English Thursday line, in any letter case. */
  predicate IsEnglishThursday(ln: string) {
    DayColon(Strip(ln), THURSDAY_EN, true).Some?
  }

  /** The hours of a day line: the text after the colon the pattern matched, stripped. */
  function HoursOf(ln: string, day: string, ignoreCase: bool): (r: string)
    requires DayColon(Strip(ln), day, ignoreCase).Some?
    ensures |r| < |ln|
  {
    var s := Strip(ln);
    Strip(s[DayColon(s, day, ignoreCase).value + 1..])
  }

  /** As written: `ln.split(":", 1)[-1].strip()`, which cuts at the first ASCII colon, or keeps the whole line without one. */
  function HoursAsWritten(ln: string): (r: string)
    ensures |r| <= |ln|
  {
    var j := FindFrom(ln, ':', 0);
    Strip(if j == |ln| then ln else ln[j + 1..])
  }

  lemma ArabicDayColon(colon: char, rest: string)
    requires IsColon(colon)
    ensures DayColon(THURSDAY_AR + [colon] + rest, THURSDAY_AR, false) == Some(|THURSDAY_AR|)
  {
    var ln := THURSDAY_AR + [colon] + rest;
    var n := |THURSDAY_AR|;
    assert SkipSpaces(ln, 0) == 0 by {
      assert ln[0] == THURSDAY_AR[0];
    }
    assert ln[0..n] == THURSDAY_AR;
    NameAtExact(ln, 0, THURSDAY_AR);
    assert ln[n] == colon;
    assert SkipSpaces(ln, n) == n;
  }

  /** A line "الخميس" + colon + hours, with no space around the colon, is a Thursday line with those hours. */
  lemma ThursdayLineWithColon(colon: char, hours: string)
    requires IsColon(colon)
    requires hours != [] && !IsSpace(hours[0]) && !IsSpace(hours[|hours| - 1])
    ensures IsArabicThursday(THURSDAY_AR + [colon] + hours)
    ensures HoursOf(THURSDAY_AR + [colon] + hours, THURSDAY_AR, false) == hours
  {
    var ln := THURSDAY_AR + [colon] + hours;
    var n := |THURSDAY_AR|;
    assert ln[0] == THURSDAY_AR[0] && ln[|ln| - 1] == hours[|hours| - 1];
    StripUnchanged(ln);
    ArabicDayColon(colon, hours);
    assert ln[n + 1..] == hours;
    StripUnchanged(hours);
  }

  /**
   * As written, a Thursday line whose only colon is the full-width one comes
   * back whole, day name included, instead of as its hours.
   */
  lemma FullWidthColonKeepsDayName(hours: string)
    requires hours != [] && !IsSpace(hours[0]) && !IsSpace(hours[|hours| - 1])
    requires forall k :: 0 <= k < |hours| ==> hours[k] != ':'
    ensures IsArabicThursday(THURSDAY_AR + "\U{ff1a}" + hours)
    ensures HoursAsWritten(THURSDAY_AR + "\U{ff1a}" + hours) == THURSDAY_AR + "\U{ff1a}" + hours
    ensures HoursOf(THURSDAY_AR + "\U{ff1a}" + hours, THURSDAY_AR, false) == hours
  {
    var ln := THURSDAY_AR + "\U{ff1a}" + hours;
    assert ln == THURSDAY_AR + ['\U{ff1a}'] + hours;
    ThursdayLineWithColon('\U{ff1a}', hours);
    NoAsciiColon(hours);
    StripUnchanged(ln);
  }

  lemma NoAsciiColon(hours: string)
    requires forall k :: 0 <= k < |hours| ==> hours[k] != ':'
    ensures FindFrom(THURSDAY_AR + "\U{ff1a}" + hours, ':', 0) == |THURSDAY_AR + "\U{ff1a}" + hours|
  {
    var ln := THURSDAY_AR + "\U{ff1a}" + hours;
    var n := |THURSDAY_AR|;
    forall k | 0 <= k < |ln| ensures ln[k] != ':' {
      if k > n { assert ln[k] == hours[k - n - 1]; }
    }
    FindFromAbsent(ln, ':', 0);
  }

  lemma {:induction false} FindFromAbsent(s: string, c: char, i: nat)
    requires i <= |s| && forall k :: i <= k < |s| ==> s[k] != c
    ensures FindFrom(s, c, i) == |s|
    decreases |s| - i
  {
    if i < |s| {
      FindFromAbsent(s, c, i + 1);
    }
  }

  /** With the ASCII colon right after the day name, the code as written and the corrected one agree. */
  lemma AsciiColonAgrees(hours: string)
    requires hours != [] && !IsSpace(hours[0]) && !IsSpace(hours[|hours| - 1])
    ensures IsArabicThursday(THURSDAY_AR + [':'] + hours)
    ensures HoursAsWritten(THURSDAY_AR + [':'] + hours) == HoursOf(THURSDAY_AR + [':'] + hours, THURSDAY_AR, false) == hours
  {
    ThursdayLineWithColon(':', hours);
    AsWrittenAfterAsciiColon(hours);
  }

  lemma AsWrittenAfterAsciiColon(hours: string)
    requires hours != [] && !IsSpace(hours[0]) && !IsSpace(hours[|hours| - 1])
    ensures HoursAsWritten(THURSDAY_AR + [':'] + hours) == hours
  {
    var ln := THURSDAY_AR + [':'] + hours;
    FirstAsciiColon(hours);
    assert ln[|THURSDAY_AR| + 1..] == hours;
    StripUnchanged(hours);
  }

  lemma FirstAsciiColon(hours: string)
    ensures FindFrom(THURSDAY_AR + [':'] + hours, ':', 0) == |THURSDAY_AR|
  {
    var ln := THURSDAY_AR + [':'] + hours;
    var n := |THURSDAY_AR|;
    assert forall k :: 0 <= k < n ==> ln[k] == THURSDAY_AR[k];
    assert ln[n] == ':';
    FindFromIs(ln, ':', 0, n);
  }

  lemma {:induction false} FindFromIs(s: string, c: char, i: nat, j: nat)
    requires i <= j < |s| && s[j] == c && forall k :: i <= k < j ==> s[k] != c
    ensures FindFrom(s, c, i) == j
    decreases j - i
  {
    if i < j {
      FindFromIs(s, c, i + 1, j);
    }
  }

  /** Index of the first line at or after `i` that satisfies `isDay`. */
  function FirstWhere(lines: seq<string>, isDay: string -> bool, i: nat): (r: Option<nat>)
    requires i <= |lines|
    ensures r.Some? ==> i <= r.value < |lines| && isDay(lines[r.value])
    ensures r.Some? ==> forall j :: i <= j < r.value ==> !isDay(lines[j])
    ensures r.None? ==> forall j :: i <= j < |lines| ==> !isDay(lines[j])
    decreases |lines| - i
  {
    if i == |lines| then None
    else if isDay(lines[i]) then Some(i)
    else FirstWhere(lines, isDay, i + 1)
  }

  /** The first line satisfying `isDay` is the one `FirstWhere` finds. */
  lemma {:induction false} FirstWhereIs(lines: seq<string>, isDay: string -> bool, i: nat, j: nat)
    requires i <= j < |lines| && isDay(lines[j])
    requires forall k :: i <= k < j ==> !isDay(lines[k])
    ensures FirstWhere(lines, isDay, i) == Some(j)
    decreases j - i
  {
    if i < j {
      FirstWhereIs(lines, isDay, i + 1, j);
    }
  }

  /**
   * `extract_thursday_range`: the hours of the first Arabic Thursday line;
   * failing that, of the first English one; failing that, "غير متاح".
   */
  function ThursdayRange(lines: seq<string>): (r: string)
    ensures (forall j :: 0 <= j < |lines| ==> !IsArabicThursday(lines[j]) && !IsEnglishThursday(lines[j]))
      ==> r == NOT_AVAILABLE
  {
    match FirstWhere(lines, IsArabicThursday, 0)
    case Some(i) => HoursOf(lines[i], THURSDAY_AR, false)
    case None =>
      match FirstWhere(lines, IsEnglishThursday, 0)
      case Some(i) => HoursOf(lines[i], THURSDAY_EN, true)
      case None => NOT_AVAILABLE
  }

  /** The first Arabic Thursday line decides, wherever English lines stand. */
  lemma ArabicLineWins(lines: seq<string>, j: nat)
    requires j < |lines| && IsArabicThursday(lines[j])
    requires forall i :: 0 <= i < j ==> !IsArabicThursday(lines[i])
    ensures ThursdayRange(lines) == HoursOf(lines[j], THURSDAY_AR, false)
  {
    FirstWhereIs(lines, IsArabicThursday, 0, j);
  }

  /** An English Thursday line counts only when there is no Arabic one, and then the first one counts. */
  lemma EnglishLineIsFallback(lines: seq<string>, j: nat)
    requires j < |lines| && IsEnglishThursday(lines[j])
    requires forall i :: 0 <= i < |lines| ==> !IsArabicThursday(lines[i])
    requires forall i :: 0 <= i < j ==> !IsEnglishThursday(lines[i])
    ensures ThursdayRange(lines) == HoursOf(lines[j], THURSDAY_EN, true)
  {
    assert FirstWhere(lines, IsArabicThursday, 0).None?;
    FirstWhereIs(lines, IsEnglishThursday, 0, j);
  }

  /** One search loop of `extract_thursday_range`: the index of the first line satisfying `isDay`. */
  method FindDay(lines: seq<string>, isDay: string -> bool) returns (k: Option<nat>)
    ensures k == FirstWhere(lines, isDay, 0)
  {
    for i := 0 to |lines|
      invariant FirstWhere(lines, isDay, 0) == FirstWhere(lines, isDay, i)
    {
      if isDay(lines[i]) {
        return Some(i);
      }
    }
    return None;
  }

  /** `extract_thursday_range` with its two loops, the hours cut at the colon the pattern matched. */
  method ExtractThursdayRange(lines: seq<string>) returns (r: string)
    ensures r == ThursdayRange(lines)
  {
    if |lines| == 0 {
      return NOT_AVAILABLE;
    }
    var a := FindDay(lines, IsArabicThursday);
    if a.Some? {
      return HoursOf(lines[a.value], THURSDAY_AR, false);
    }
    var e := FindDay(lines, IsEnglishThursday);
    if e.Some? {
      return HoursOf(lines[e.value], THURSDAY_EN, true);
    }
    return NOT_AVAILABLE;
  }

  // ----- _hits -----

  /** `TYPE_SYNONYMS` in its insertion order: a query word and the place types that confirm it. */
  const TYPE_SYNONYMS: seq<(string, set<string>)> := [
    ("برجر", {"hamburger_restaurant", "fast_food_restaurant", "american_restaurant"}),
    ("burger", {"hamburger_restaurant"}),
    ("بيتزا", {"pizza_restaurant", "italian_restaurant"}),
    ("pizza", {"pizza_restaurant"}),
    ("قهوة", {"cafe", "coffee_shop"}),
    ("كافيه", {"cafe", "coffee_shop"})
  ]

  /** `set(types).intersection(syn)` is not empty. */
  predicate Meets(syn: set<string>, types: seq<string>) {
    exists t :: t in types && t in syn
  }

  /** Synonym entry `k` confirms the lowered keyword `kw` for a place of these types. */
  predicate Confirms(k: nat, kw: string, types: seq<string>)
    requires k < |TYPE_SYNONYMS|
  {
    Contains(kw, TYPE_SYNONYMS[k].0) && Meets(TYPE_SYNONYMS[k].1, types)
  }

  /** A string has no word exactly when it is all whitespace. */
  lemma {:induction false} NoWordsIffBlank(s: string)
    ensures SplitWs(s) == [] <==> forall i :: 0 <= i < |s| ==> IsSpace(s[i])
    decreases |s|
  {
    if s != [] && IsSpace(s[0]) {
      NoWordsIffBlank(s[1..]);
      assert forall i :: 1 <= i < |s| ==> s[i] == s[1..][i - 1];
    }
  }

  lemma LowerKeepsBlank(s: string)
    ensures |Lower(s)| == |s|
    ensures (forall i :: 0 <= i < |Lower(s)| ==> IsSpace(Lower(s)[i])) <==> forall i :: 0 <= i < |s| ==> IsSpace(s[i])
  {
    assert forall i :: 0 <= i < |s| ==> (IsSpace(Lower(s)[i]) <==> IsSpace(s[i]));
  }

  /**
   * As written: `kw.split()[0] in name.lower()` once `kw` is not empty. None
   * stands for the IndexError a keyword of whitespace only raises.
   */
  function NameHitAsWritten(keyword: string, name: string): Option<nat> {
    var kw := Lower(keyword);
    if kw == [] then Some(0)
    else
      var ws := SplitWs(kw);
      if ws == [] then None else Some(if Contains(Lower(name), ws[0]) then 1 else 0)
  }

  /** The name hit, a keyword without words giving no hit: 1 when the keyword's first word occurs in the name, ignoring case. */
  function NameHit(keyword: string, name: string): (r: nat)
    ensures r <= 1
    ensures (forall i :: 0 <= i < |keyword| ==> IsSpace(keyword[i])) ==> r == 0
  {
    var ws := SplitWs(Lower(keyword));
    LowerKeepsBlank(keyword);
    NoWordsIffBlank(Lower(keyword));
    if ws == [] then 0 else if Contains(Lower(name), ws[0]) then 1 else 0
  }

  /** The code as written fails exactly on a non-empty keyword of whitespace only, and agrees with `NameHit` everywhere else. */
  lemma NameHitAgrees(keyword: string, name: string)
    ensures NameHitAsWritten(keyword, name).None? <==> keyword != [] && forall i :: 0 <= i < |keyword| ==> IsSpace(keyword[i])
    ensures NameHitAsWritten(keyword, name).Some? ==> NameHitAsWritten(keyword, name).value == NameHit(keyword, name)
  {
    LowerKeepsBlank(keyword);
    NoWordsIffBlank(Lower(keyword));
  }

  /** The keyword " " raises as written, and gives no hit once corrected. */
  lemma BlankKeywordRaises(name: string)
    ensures NameHitAsWritten(" ", name).None?
    ensures NameHit(" ", name) == 0
  {
    NameHitAgrees(" ", name);
  }

  /** With a first word `w`, the name hit says whether `w` occurs in the name, ignoring case. */
  lemma NameHitOfFirstWord(w: string, t: string, name: string)
    requires w != [] && forall i :: 0 <= i < |w| ==> !IsSpace(w[i])
    requires t == [] || IsSpace(t[0])
    ensures NameHit(w + t, name) == if Contains(Lower(name), Lower(w)) then 1 else 0
  {
    var s := Lower(w + t);
    assert s == Lower(w) + Lower(t);
    assert forall i :: 0 <= i < |w| ==> IsNotSpace(s[i]);
    assert |w| < |s| ==> !IsNotSpace(s[|w|]);
    SpanIs(s, IsNotSpace, |w|);
    assert s[..|w|] == Lower(w);
  }

  /**
   * `_hits(keyword, name, types)`: the name hit, and a type hit of 1 when some
   * synonym entry whose word occurs in the lowered keyword lists one of the
   * place's types.
   */
  method Hits(keyword: string, name: string, types: seq<string>) returns (nameHit: nat, typeHit: nat)
    ensures nameHit == NameHit(keyword, name)
    ensures typeHit <= 1
    ensures typeHit == 1 <==> exists k :: 0 <= k < |TYPE_SYNONYMS| && Confirms(k, Lower(keyword), types)
  {
    var kw := Lower(keyword);
    nameHit := NameHit(keyword, name);
    typeHit := 0;
    for k := 0 to |TYPE_SYNONYMS|
      invariant typeHit == 0
      invariant forall j :: 0 <= j < k ==> !Confirms(j, kw, types)
    {
      if Contains(kw, TYPE_SYNONYMS[k].0) && Meets(TYPE_SYNONYMS[k].1, types) {
        assert Confirms(k, kw, types);
        typeHit := 1;
        break;
      }
    }
  }

  // ----- place_score -----

  /**
   * `place_score(...)`: the rating times `log1p` of the review count (a
   * missing rating counting 0, a missing or negative count 0), plus 0.8 per
   * name hit and 0.5 per type hit, less 0.2 for a missing phone and 0.2 for a
   * missing website. `log1p` stands for `math.log1p`; `open_now` has no weight.
   */
  function PlaceScore(rating: Option<real>, reviews: Option<int>, nameHit: int, typeHit: int,
                      phone: string, website: string, log1p: nat -> real): real
  {
    var r := if rating.Some? then rating.value else 0.0;
    var c := if reviews.Some? && reviews.value > 0 then reviews.value else 0;
    var openBoost := 0.0;
    var phonePen := if phone == [] then 0.2 else 0.0;
    var sitePen := if website == [] then 0.2 else 0.0;
    r * log1p(c) + 0.8 * nameHit as real + 0.5 * typeHit as real + openBoost - phonePen - sitePen
  }

  /**
   * What each input is worth: a name hit 0.8, a type hit 0.5, a phone and a
   * website 0.2 each; a negative review count counts as none, and an unrated
   * place scores the same whatever its review count.
   */
  lemma PlaceScoreWeights(rating: Option<real>, reviews: Option<int>, n: int, t: int,
                          phone: string, website: string, log1p: nat -> real)
    requires phone != [] && website != []
    ensures PlaceScore(rating, reviews, n + 1, t, phone, website, log1p) == PlaceScore(rating, reviews, n, t, phone, website, log1p) + 0.8
    ensures PlaceScore(rating, reviews, n, t + 1, phone, website, log1p) == PlaceScore(rating, reviews, n, t, phone, website, log1p) + 0.5
    ensures PlaceScore(rating, reviews, n, t, "", website, log1p) == PlaceScore(rating, reviews, n, t, phone, website, log1p) - 0.2
    ensures PlaceScore(rating, reviews, n, t, phone, "", log1p) == PlaceScore(rating, reviews, n, t, phone, website, log1p) - 0.2
    ensures reviews.Some? && reviews.value < 0 ==>
      PlaceScore(rating, reviews, n, t, phone, website, log1p) == PlaceScore(rating, None, n, t, phone, website, log1p)
    ensures rating.None? ==>
      PlaceScore(rating, reviews, n, t, phone, website, log1p) == PlaceScore(rating, None, n, t, phone, website, log1p)
  {
    if rating.None? {
      var c := if reviews.Some? && reviews.value > 0 then reviews.value else 0;
      assert 0.0 * log1p(c) == 0.0 == 0.0 * log1p(0);
    }
  }

  // ----- _geo_tile -----

  function DigitChar(d: nat): (c: char)
    requires d < 10
    ensures IsAsciiDigit(c) && IsDecimalDigit(c) && DigitValue(c) == d
  {
    '0' + d as char
  }

  /** The three digits of a number below 1000, with leading zeros. */
  function ThreeDigits(n: nat): (r: string)
    requires n < 1000
    ensures |r| == 3 && (forall k :: 0 <= k < 3 ==> IsDecimalDigit(r[k]) && r[k] != '.' && r[k] != ',')
    ensures DigitsValue(r) == n
  {
    var h, t, o := n / 100, n / 10 % 10, n % 10;
    var r := [DigitChar(h), DigitChar(t), DigitChar(o)];
    assert n / 10 == h * 10 + t;
    assert n == (n / 10) * 10 + o;
    assert r[..2][..1] == [DigitChar(h)] && DigitsValue([DigitChar(h)]) == h;
    assert r[..2] == [DigitChar(h), DigitChar(t)];
    assert DigitsValue(r[..2]) == h * 10 + t;
    r
  }

  /**
   * `f"{x:.3f}"` of a coordinate already rounded to three decimals, given as a
   * whole number of thousandths of a degree.
   */
  function Thousandths(v: int): (r: string)
    ensures r != [] && (r[0] == '-' <==> v < 0)
    ensures forall k :: 0 <= k < |r| ==> r[k] != ','
  {
    var a := if v < 0 then -v else v;
    (if v < 0 then "-" else "") + NatToString(a / 1000) + "." + ThreeDigits(a % 1000)
  }

  /** Reads back a coordinate written with three decimals; None for any other text. */
  function ParseThousandths(s: string): Option<int> {
    if s != [] && s[0] == '-' then
      match ParseUnsigned(s[1..])
      case Some(v) => Some(-(v as int))
      case None => None
    else ParseUnsigned(s)
  }

  /** Reads back digits, a '.', and exactly three digits. */
  function ParseUnsigned(b: string): Option<nat> {
    var dot := FindFrom(b, '.', 0);
    if dot == 0 || dot + 4 != |b| then None
    else if !(forall k :: 0 <= k < |b| && k != dot ==> IsDecimalDigit(b[k])) then None
    else Some(DigitsValue(b[..dot]) * 1000 + DigitsValue(b[dot + 1..]))
  }

  lemma UnsignedRoundTrip(q: nat, r: nat)
    requires r < 1000
    ensures ParseUnsigned(NatToString(q) + "." + ThreeDigits(r)) == Some(q * 1000 + r)
  {
    var n := NatToString(q);
    var b := n + "." + ThreeDigits(r);
    DigitsOfNatToString(q);
    assert b[|n|] == '.';
    assert forall k :: 0 <= k < |n| ==> b[k] == n[k];
    FindFromIs(b, '.', 0, |n|);
    assert b[..|n|] == n;
    assert b[|n| + 1..] == ThreeDigits(r);
    assert forall k :: 0 <= k < |b| && k != |n| ==> IsDecimalDigit(b[k]) by {
      forall k | 0 <= k < |b| && k != |n| ensures IsDecimalDigit(b[k]) {
        if k > |n| { assert b[k] == ThreeDigits(r)[k - |n| - 1]; }
      }
    }
  }

  /** Writing a coordinate and reading it back gives the coordinate. */
  lemma ThousandthsRoundTrip(v: int)
    ensures ParseThousandths(Thousandths(v)) == Some(v)
  {
    var a := if v < 0 then -v else v;
    var b := NatToString(a / 1000) + "." + ThreeDigits(a % 1000);
    UnsignedRoundTrip(a / 1000, a % 1000);
    assert b[0] != '-';
    if v < 0 {
      assert Thousandths(v) == "-" + b && ("-" + b)[1..] == b;
    } else {
      assert Thousandths(v) == b;
    }
  }

  /** `_geo_tile(lat, lng)`: "lat,lng" with three decimals each, or "" when a coordinate is missing. */
  function GeoTile(lat: Option<int>, lng: Option<int>): (r: string)
    ensures r == [] <==> lat.None? || lng.None?
  {
    if lat.None? || lng.None? then "" else Thousandths(lat.value) + "," + Thousandths(lng.value)
  }

  /** Distinct coordinates never share a tile. */
  lemma GeoTileInjective(a: int, b: int, c: int, d: int)
    requires GeoTile(Some(a), Some(b)) == GeoTile(Some(c), Some(d))
    ensures a == c && b == d
  {
    var x, y := Thousandths(a), Thousandths(c);
    var t := GeoTile(Some(a), Some(b));
    assert t[|x|] == ',' && t[|y|] == ',';
    assert forall k :: 0 <= k < |x| ==> t[k] == x[k];
    assert forall k :: 0 <= k < |y| ==> t[k] == y[k];
    assert |x| == |y|;
    assert x == t[..|x|] == y;
    assert Thousandths(b) == t[|x| + 1..] == Thousandths(d);
    ThousandthsRoundTrip(a);
    ThousandthsRoundTrip(b);
    ThousandthsRoundTrip(c);
    ThousandthsRoundTrip(d);
  }

  // ----- dedupe_places -----

  /**
   * A place as `normalize_from_google` builds it. Coordinates are whole
   * thousandths of a degree, already rounded.
   */
  datatype Place = Place(
    name: string, address: string, phone: string, website: string, googleUrl: string,
    rating: Option<real>, reviews: int, lat: Option<int>, lng: Option<int>,
    priceBand: string, thursdayRange: string)

  /** The second half of the key: `phone4 or dom or tile`. */
  function Locator(p: Place): (r: string)
    ensures Last4Digits(p.phone) != [] ==> r == Last4Digits(p.phone)
    ensures Last4Digits(p.phone) == [] && Domain(p.website) != [] ==> r == Domain(p.website)
    ensures Last4Digits(p.phone) == [] && Domain(p.website) == [] ==> r == GeoTile(p.lat, p.lng)
  {
    var phone4 := Last4Digits(p.phone);
    var dom := Domain(p.website);
    if phone4 != [] then phone4 else if dom != [] then dom else GeoTile(p.lat, p.lng)
  }

  /** The bucket key `f"{slug}|{phone4 or dom or tile}"`. */
  function PlaceKey(p: Place, decompose: string -> string): string {
    Slug(p.name, decompose) + "|" + Locator(p)
  }

  /** Two places share a key exactly when their names share a slug and they share a locator. */
  lemma SameKeyIff(p: Place, q: Place, decompose: string -> string)
    ensures PlaceKey(p, decompose) == PlaceKey(q, decompose)
      <==> Slug(p.name, decompose) == Slug(q.name, decompose) && Locator(p) == Locator(q)
  {
    KeySplits(Slug(p.name, decompose), Slug(q.name, decompose), Locator(p), Locator(q));
  }

  /** Joining two slugs to two locators with '|' keeps both halves apart. */
  lemma KeySplits(x: string, y: string, l: string, m: string)
    requires IsSlug(x) && IsSlug(y)
    ensures x + "|" + l == y + "|" + m <==> x == y && l == m
  {
    var kx, ky := x + "|" + l, y + "|" + m;
    if kx == ky {
      assert kx[|x|] == '|' && ky[|y|] == '|';
      assert forall k :: 0 <= k < |x| ==> kx[k] == x[k] && IsSlugOrDash(x[k]);
      assert forall k :: 0 <= k < |y| ==> ky[k] == y[k] && IsSlugOrDash(y[k]);
      assert |x| == |y|;
      assert x == kx[..|x|] == y;
      assert l == kx[|x| + 1..] == m;
    }
  }

  function RatingOrZero(p: Place): real {
    match p.rating
    case Some(x) => x
    case None => 0.0
  }

  /**
   * `(b.reviews_count, b.rating) > (a.reviews_count, a.rating)`, compared
   * lexicographically, with a missing rating counting as 0.
   */
  predicate Stronger(b: Place, a: Place) {
    b.reviews > a.reviews || (b.reviews == a.reviews && RatingOrZero(b) > RatingOrZero(a))
  }

  /**
   * As written: Python's tuple comparison. None stands for the TypeError
   * raised when the review counts are equal and exactly one rating is None.
   */
  function StrongerAsWritten(b: Place, a: Place): Option<bool> {
    if b.reviews != a.reviews then Some(b.reviews > a.reviews)
    else
      match (b.rating, a.rating)
      case (Some(x), Some(y)) => Some(x > y)
      case (None, None) => Some(false)
      case _ => None
  }

  /** The code as written fails exactly on equal review counts with one rating missing, and agrees with `Stronger` elsewhere. */
  lemma StrongerAgrees(b: Place, a: Place)
    ensures StrongerAsWritten(b, a).None? <==> b.reviews == a.reviews && b.rating.None? != a.rating.None?
    ensures StrongerAsWritten(b, a).Some? ==> StrongerAsWritten(b, a).value == Stronger(b, a)
  {
  }

  /** Two records with 120 reviews each, one rated 4.5 and one unrated, raise as written; the unrated one counts as weaker once corrected. */
  lemma UnratedTieRaises(a: Place, b: Place)
    requires a.reviews == b.reviews == 120 && a.rating == Some(4.5) && b.rating.None?
    ensures StrongerAsWritten(b, a).None? && StrongerAsWritten(a, b).None?
    ensures Stronger(a, b) && !Stronger(b, a)
  {
  }

  /** `Stronger` is a strict weak order: irreflexive, transitive, and anything stronger than `c` is stronger than whatever is not. */
  lemma StrongerOrder(x: Place, y: Place, c: Place)
    ensures !Stronger(x, x)
    ensures Stronger(x, y) && Stronger(y, c) ==> Stronger(x, c)
    ensures Stronger(x, c) && !Stronger(y, c) ==> Stronger(x, y)
  {
  }

  /** The bucket key of every item, in order. */
  function KeysOf(items: seq<Place>, decompose: string -> string): (r: seq<string>)
    ensures |r| == |items|
  {
    seq(|items|, i requires 0 <= i < |items| => PlaceKey(items[i], decompose))
  }

  /**
   * The `buckets` dict after the loop has met items whose keys are `keys`:
   * its keys in insertion order, and for each key the position of the record
   * it holds. A new key takes the record; a known key takes it only when it
   * is `Stronger` than the record held.
   */
  function Bucketed(items: seq<Place>, keys: seq<string>): (b: (seq<string>, map<string, nat>))
    requires |keys| == |items|
    ensures forall k :: k in b.1 ==> b.1[k] < |items| && keys[b.1[k]] == k
    ensures forall k :: k in b.1 <==> k in b.0
    decreases |items|
  {
    if items == [] then ([], map[])
    else
      var n := |items| - 1;
      var prev := Bucketed(items[..n], keys[..n]);
      var k := keys[n];
      if k !in prev.1 then (prev.0 + [k], prev.1[k := n])
      else if Stronger(items[n], items[prev.1[k]]) then (prev.0, prev.1[k := n])
      else prev
  }

  /** The records held for the keys of `order`, in that order. */
  function BucketValues(items: seq<Place>, order: seq<string>, buckets: map<string, nat>): (r: seq<Place>)
    requires forall i :: 0 <= i < |order| ==> order[i] in buckets && buckets[order[i]] < |items|
    ensures |r| == |order|
    ensures forall j :: 0 <= j < |r| ==> r[j] == items[buckets[order[j]]]
  {
    seq(|order|, i requires 0 <= i < |order| => items[buckets[order[i]]])
  }

  lemma BucketedDomain(items: seq<Place>, keys: seq<string>)
    requires |keys| == |items|
    ensures var b := Bucketed(items, keys);
      forall i :: 0 <= i < |b.0| ==> b.0[i] in b.1 && b.1[b.0[i]] < |items|
  {
  }

  /** `list(buckets.values())` for items whose keys are `keys`. */
  function Kept(items: seq<Place>, keys: seq<string>): (r: seq<Place>)
    requires |keys| == |items|
  {
    BucketedDomain(items, keys);
    var b := Bucketed(items, keys);
    BucketValues(items, b.0, b.1)
  }

  /** The records `dedupe_places` keeps, in the order their keys first appeared. */
  function DedupedPlaces(items: seq<Place>, decompose: string -> string): (r: seq<Place>)
  {
    Kept(items, KeysOf(items, decompose))
  }

  /** Every key met has a bucket. */
  lemma BucketedHoldsEveryKey(items: seq<Place>, keys: seq<string>)
    requires |keys| == |items|
    ensures forall j :: 0 <= j < |items| ==> keys[j] in Bucketed(items, keys).1
  {
    BucketedOrder(items, keys);
    forall j | 0 <= j < |items| ensures keys[j] in Bucketed(items, keys).1 {
      assert keys[j] in Dedup(keys);
    }
  }

  /** The buckets after the first `len` items, from those after the first `len - 1`. */
  lemma BucketedLastAt(items: seq<Place>, keys: seq<string>, len: nat)
    requires |keys| == |items| && 0 < len <= |items|
    ensures var n := len - 1; var prev := Bucketed(items[..n], keys[..n]);
      Bucketed(items[..len], keys[..len]) ==
        if keys[n] !in prev.1 then (prev.0 + [keys[n]], prev.1[keys[n] := n])
        else if Stronger(items[n], items[prev.1[keys[n]]]) then (prev.0, prev.1[keys[n] := n])
        else prev
  {
    assert items[..len][..len - 1] == items[..len - 1];
    assert keys[..len][..len - 1] == keys[..len - 1];
  }
  lemma BucketedLastOrder(items: seq<Place>, keys: seq<string>)
    requires |keys| == |items| && items != []
    ensures var n := |items| - 1; var prev := Bucketed(items[..n], keys[..n]);
      Bucketed(items, keys).0 == if keys[n] in prev.1 then prev.0 else prev.0 + [keys[n]]
  {
  }

  lemma BucketedOrderStep(items: seq<Place>, keys: seq<string>)
    requires |keys| == |items| && items != []
    requires var n := |items| - 1; Bucketed(items[..n], keys[..n]).0 == Dedup(keys[..n])
    ensures Bucketed(items, keys).0 == Dedup(keys)
  {
    BucketedLastOrder(items, keys);
    DedupLast(keys);
  }

  /** The keys of the buckets, in insertion order, are the keys of the input with repeats dropped. */
  lemma {:induction false} BucketedOrder(items: seq<Place>, keys: seq<string>)
    requires |keys| == |items|
    ensures Bucketed(items, keys).0 == Dedup(keys)
    decreases |items|
  {
    if items != [] {
      var n := |items| - 1;
      BucketedOrder(items[..n], keys[..n]);
      BucketedOrderStep(items, keys);
    }
  }

  /**
   * Among the first `len` records, record `i` is the one to keep for its
   * key: no record with that key is `Stronger`, and it is `Stronger` than
   * every earlier record with that key.
   */
  predicate StrongestWithin(items: seq<Place>, keys: seq<string>, i: nat, len: nat)
    requires |keys| == |items| && i < len <= |items|
  {
    forall j :: 0 <= j < len && keys[j] == keys[i] ==>
      !Stronger(items[j], items[i]) && (j < i ==> Stronger(items[i], items[j]))
  }

  /** Record `i` is the one to keep for its key among all the records. */
  predicate StrongestOfKey(items: seq<Place>, keys: seq<string>, i: nat)
    requires |keys| == |items| && i < |items|
  {
    StrongestWithin(items, keys, i, |items|)
  }

  /** A record stays the one to keep when the next record has another key or is not `Stronger`. */
  lemma WithinExtends(items: seq<Place>, keys: seq<string>, m: nat, n: nat)
    requires |keys| == |items| && m < n < |items|
    requires StrongestWithin(items, keys, m, n)
    requires keys[m] != keys[n] || !Stronger(items[n], items[m])
    ensures StrongestWithin(items, keys, m, n + 1)
  {
  }

  /** The first record of a key is the one to keep. */
  lemma WithinNew(items: seq<Place>, keys: seq<string>, n: nat)
    requires |keys| == |items| && n < |items|
    requires forall j :: 0 <= j < n ==> keys[j] != keys[n]
    ensures StrongestWithin(items, keys, n, n + 1)
  {
  }

  /** A record `Stronger` than the one to keep takes its place. */
  lemma WithinReplaced(items: seq<Place>, keys: seq<string>, h: nat, n: nat)
    requires |keys| == |items| && h < n < |items| && keys[h] == keys[n]
    requires StrongestWithin(items, keys, h, n)
    requires Stronger(items[n], items[h])
    ensures StrongestWithin(items, keys, n, n + 1)
  {
    forall j | 0 <= j < n && keys[j] == keys[n]
      ensures !Stronger(items[j], items[n]) && Stronger(items[n], items[j])
    {
      StrongerOrder(items[n], items[j], items[h]);
    }
  }

  /** The record held for the key of item `len - 1`, once it is absorbed, is the one to keep. */
  lemma StrongestOfLastKey(items: seq<Place>, keys: seq<string>, len: nat)
    requires |keys| == |items| && 0 < len <= |items|
    requires var n := len - 1; var prev := Bucketed(items[..n], keys[..n]);
      keys[n] in prev.1 ==> StrongestWithin(items, keys, prev.1[keys[n]], n)
    ensures keys[len - 1] in Bucketed(items[..len], keys[..len]).1
    ensures StrongestWithin(items, keys, Bucketed(items[..len], keys[..len]).1[keys[len - 1]], len)
  {
    var n := len - 1;
    var prev := Bucketed(items[..n], keys[..n]);
    BucketedLastAt(items, keys, len);
    if keys[n] !in prev.1 {
      BucketedHoldsEveryKey(items[..n], keys[..n]);
      assert forall j :: 0 <= j < n ==> keys[..n][j] == keys[j];
      WithinNew(items, keys, n);
    } else {
      var h := prev.1[keys[n]];
      if Stronger(items[n], items[h]) {
        WithinReplaced(items, keys, h, n);
      } else {
        WithinExtends(items, keys, h, n);
      }
    }
  }

  /** Every record the buckets hold after `len` items is the one to keep among them. */
  lemma {:induction false} BucketedStrongest(items: seq<Place>, keys: seq<string>, len: nat)
    requires |keys| == |items| && len <= |items|
    ensures var b := Bucketed(items[..len], keys[..len]);
      forall k :: k in b.1 ==> StrongestWithin(items, keys, b.1[k], len)
    decreases len
  {
    if len > 0 {
      var n := len - 1;
      var prev := Bucketed(items[..n], keys[..n]);
      var b := Bucketed(items[..len], keys[..len]);
      BucketedStrongest(items, keys, n);
      BucketedLastAt(items, keys, len);
      forall k | k in b.1 && k != keys[n] ensures StrongestWithin(items, keys, b.1[k], len) {
        assert b.1[k] == prev.1[k];
        WithinExtends(items, keys, prev.1[k], n);
      }
      StrongestOfLastKey(items, keys, len);
    }
  }

  /** Record `j` of the output is the one held for the `j`-th key, and that record is the strongest of its key. */
  lemma KeptFromEach(items: seq<Place>, keys: seq<string>, j: nat) returns (i: nat)
    requires |keys| == |items| && j < |Kept(items, keys)|
    ensures i < |items| && Kept(items, keys)[j] == items[i]
    ensures j < |Dedup(keys)| && keys[i] == Dedup(keys)[j] && StrongestOfKey(items, keys, i)
  {
    var b := Bucketed(items, keys);
    BucketedStrongest(items, keys, |items|);
    assert items[..|items|] == items && keys[..|items|] == keys;
    BucketedDomain(items, keys);
    BucketedOrder(items, keys);
    i := b.1[b.0[j]];
  }

  /** Every key of the input has exactly one record in the output, in the order the keys first appear. */
  lemma DedupedPlacesKeys(items: seq<Place>, decompose: string -> string)
    ensures KeysOf(DedupedPlaces(items, decompose), decompose) == Dedup(KeysOf(items, decompose))
  {
    var keys := KeysOf(items, decompose);
    var r := Kept(items, keys);
    BucketedOrder(items, keys);
    forall j | 0 <= j < |r| ensures PlaceKey(r[j], decompose) == Dedup(keys)[j] {
      var i := KeptFromEach(items, keys, j);
    }
  }

  /** Each output record is an input record that is the strongest of its key, the earliest among equals. */
  lemma DedupedPlacesKept(items: seq<Place>, decompose: string -> string, j: nat)
    requires j < |DedupedPlaces(items, decompose)|
    ensures exists i ::
              0 <= i < |items| && DedupedPlaces(items, decompose)[j] == items[i]
              && StrongestOfKey(items, KeysOf(items, decompose), i)
  {
    var i := KeptFromEach(items, KeysOf(items, decompose), j);
  }

  /** The body of the loop of `dedupe_places` for item `i`, whose key is `key`. */
  method Absorb(items: seq<Place>, ghost keys: seq<string>, i: nat, key: string, order: seq<string>, buckets: map<string, nat>)
    returns (order': seq<string>, buckets': map<string, nat>)
    requires |keys| == |items| && i < |items| && key == keys[i]
    requires (order, buckets) == Bucketed(items[..i], keys[..i])
    ensures (order', buckets') == Bucketed(items[..i + 1], keys[..i + 1])
  {
    BucketedLastAt(items, keys, i + 1);
    order', buckets' := order, buckets;
    if key !in buckets {
      order' := order + [key];
      buckets' := buckets[key := i];
    } else if Stronger(items[i], items[buckets[key]]) {
      buckets' := buckets[key := i];
    }
  }

  /** The loop of `dedupe_places`, with `buckets` holding positions in `items` and `order` its insertion order. */
  method DedupePlaces(items: seq<Place>, decompose: string -> string) returns (out: seq<Place>)
    ensures out == DedupedPlaces(items, decompose)
  {
    ghost var keys := KeysOf(items, decompose);
    var order: seq<string> := [];
    var buckets: map<string, nat> := map[];
    for i := 0 to |items|
      invariant (order, buckets) == Bucketed(items[..i], keys[..i])
    {
      order, buckets := Absorb(items, keys, i, PlaceKey(items[i], decompose), order, buckets);
    }
    KeptIsBucketValues(items, keys, order, buckets);
    out := BucketValues(items, order, buckets);
  }

  lemma KeptIsBucketValues(items: seq<Place>, keys: seq<string>, order: seq<string>, buckets: map<string, nat>)
    requires |keys| == |items|
    requires (order, buckets) == Bucketed(items[..|items|], keys[..|items|])
    ensures forall i :: 0 <= i < |order| ==> order[i] in buckets && buckets[order[i]] < |items|
    ensures BucketValues(items, order, buckets) == Kept(items, keys)
  {
    assert items[..|items|] == items && keys[..|items|] == keys;
    BucketedDomain(items, keys);
  }

  // ----- references_from_places -----

  /** The URLs one place contributes: its Google Maps URL, then its website, each only when not empty. */
  function UrlsOf(p: Place): (r: seq<string>)
    ensures forall k :: 0 <= k < |r| ==> r[k] != []
  {
    (if p.googleUrl != [] then [p.googleUrl] else []) + (if p.website != [] then [p.website] else [])
  }

  lemma UrlsOfMembers(p: Place, u: string)
    ensures u in UrlsOf(p) <==> u != [] && (u == p.googleUrl || u == p.website)
  {
  }

  /** `out` after the first loop: every place's URLs, place by place. */
  function PlaceUrls(places: seq<Place>): seq<string> {
    ConcatMap(places, UrlsOf)
  }

  lemma PlaceUrlsStep(places: seq<Place>, i: nat)
    requires i < |places|
    ensures PlaceUrls(places[..i + 1]) == PlaceUrls(places[..i]) + UrlsOf(places[i])
  {
    assert places[..i + 1][..i] == places[..i];
  }

  lemma {:induction false} PlaceUrlsNonEmpty(places: seq<Place>)
    ensures forall k :: 0 <= k < |PlaceUrls(places)| ==> PlaceUrls(places)[k] != []
    decreases |places|
  {
    if places != [] {
      var n := |places| - 1;
      PlaceUrlsNonEmpty(places[..n]);
      PlaceUrlsStep(places, n);
      assert places[..n + 1] == places;
    }
  }

  /** A URL is collected exactly when it is the non-empty Google Maps URL or website of some place. */
  lemma {:induction false} PlaceUrlsMembers(places: seq<Place>, u: string)
    ensures u in PlaceUrls(places) <==>
      u != [] && exists i :: 0 <= i < |places| && (u == places[i].googleUrl || u == places[i].website)
    decreases |places|
  {
    if places != [] {
      var n := |places| - 1;
      PlaceUrlsMembers(places[..n], u);
      PlaceUrlsStep(places, n);
      assert places[..n + 1] == places;
      UrlsOfMembers(places[n], u);
      assert forall i :: 0 <= i < n ==> places[..n][i] == places[i];
    }
  }

  /** The URLs of place `i` stand between those of the places before it and those after it. */
  lemma PlaceUrlsAt(places: seq<Place>, i: nat)
    requires i < |places|
    ensures PlaceUrls(places) == PlaceUrls(places[..i]) + UrlsOf(places[i]) + PlaceUrls(places[i + 1..])
  {
    ConcatMapSplit(places, i + 1, UrlsOf);
    PlaceUrlsStep(places, i);
  }

  /**
   * `references_from_places(places)`: each place's Google Maps URL and website
   * when present, then the second loop keeping the first occurrence of each.
   */
  method ReferencesFromPlaces(places: seq<Place>) returns (uniq: seq<string>)
    ensures uniq == Dedup(PlaceUrls(places))
  {
    var out: seq<string> := [];
    for i := 0 to |places|
      invariant out == PlaceUrls(places[..i])
    {
      PlaceUrlsStep(places, i);
      if places[i].googleUrl != [] {
        out := out + [places[i].googleUrl];
      }
      if places[i].website != [] {
        out := out + [places[i].website];
      }
    }
    assert places[..|places|] == places;
    PlaceUrlsNonEmpty(places);
    var seen: set<string> := {};
    uniq := [];
    for i := 0 to |out|
      invariant uniq == Dedup(out[..i])
      invariant forall u :: u in seen <==> u in uniq
    {
      assert out[..i + 1][..i] == out[..i];
      DedupLast(out[..i + 1]);
      var u := out[i];
      if u != [] && u !in seen {
        seen := seen + {u};
        uniq := uniq + [u];
      }
    }
    assert out[..|out|] == out;
  }

  /** The references hold no empty and no repeated URL, and hold exactly the places' URLs. */
  lemma ReferencesContents(places: seq<Place>, u: string)
    ensures Distinct(Dedup(PlaceUrls(places)))
    ensures forall k :: 0 <= k < |Dedup(PlaceUrls(places))| ==> Dedup(PlaceUrls(places))[k] != []
    ensures u in Dedup(PlaceUrls(places)) <==>
      u != [] && exists i :: 0 <= i < |places| && (u == places[i].googleUrl || u == places[i].website)
  {
    var s := PlaceUrls(places);
    PlaceUrlsNonEmpty(places);
    PlaceUrlsMembers(places, u);
    forall k | 0 <= k < |Dedup(s)| ensures Dedup(s)[k] != [] {
      var m := FirstIndex(s, Dedup(s)[k]);
    }
  }

  /**
   * A place's Google Maps URL comes before its website in the references,
   * unless an earlier place already brought the website in.
   */
  lemma GoogleUrlBeforeWebsite(places: seq<Place>, i: nat)
    requires i < |places|
    requires places[i].googleUrl != [] && places[i].website != [] && places[i].googleUrl != places[i].website
    requires places[i].website !in PlaceUrls(places[..i])
    ensures places[i].googleUrl in Dedup(PlaceUrls(places)) && places[i].website in Dedup(PlaceUrls(places))
    ensures FirstIndex(Dedup(PlaceUrls(places)), places[i].googleUrl) < FirstIndex(Dedup(PlaceUrls(places)), places[i].website)
  {
    GoogleUrlFirst(places, i);
    DedupFirstIndexOrder(PlaceUrls(places), places[i].googleUrl, places[i].website);
  }

  lemma GoogleUrlFirst(places: seq<Place>, i: nat)
    requires i < |places|
    requires places[i].googleUrl != [] && places[i].website != [] && places[i].googleUrl != places[i].website
    requires places[i].website !in PlaceUrls(places[..i])
    ensures places[i].googleUrl in PlaceUrls(places) && places[i].website in PlaceUrls(places)
    ensures FirstIndex(PlaceUrls(places), places[i].googleUrl) < FirstIndex(PlaceUrls(places), places[i].website)
  {
    var g, w := places[i].googleUrl, places[i].website;
    var s := PlaceUrls(places);
    var pre := PlaceUrls(places[..i]);
    PlaceUrlsAt(places, i);
    assert UrlsOf(places[i]) == [g, w];
    assert s[|pre|] == g && s[|pre| + 1] == w;
    assert forall k :: 0 <= k < |pre| ==> s[k] == pre[k];
  }

  // ----- facts_markdown -----

  const ARABIC_COMMA: char := '\U{60c}'

  /** The line "- **name** — hours; price" of one place, with its area when it has one. */
  function FactLine(p: Place): (r: string)
    ensures r != [] && r[0] == '-' && r != "—"
  {
    var area := AreaOf(p.address);
    "- **" + p.name + "** — الأوقات (الخميس): " + p.thursdayRange + "؛ السعر: " + p.priceBand
      + (if area != [] then "؛ المنطقة: " + area else "")
  }

  /**
   * The area of an address: of its pieces between Arabic commas, stripped
   * and with the empty ones dropped, the one before the last; "" when there
   * are fewer than two.
   */
  function AreaOf(address: string): (r: string)
    ensures r != [] ==> !IsSpace(r[0]) && !IsSpace(r[|r| - 1])
    ensures forall k :: 0 <= k < |r| ==> r[k] != ARABIC_COMMA
  {
    var parts := StrippedNonEmpty(SplitOn(address, ARABIC_COMMA));
    if |parts| >= 2 then
      StrippedNonEmptyNoSep(SplitOn(address, ARABIC_COMMA), ARABIC_COMMA);
      parts[|parts| - 2]
    else ""
  }

  /** Stripping and dropping empty pieces keeps a character out of the pieces. */
  lemma {:induction false} StrippedNonEmptyNoSep(parts: seq<string>, c: char)
    requires forall k, i :: 0 <= k < |parts| && 0 <= i < |parts[k]| ==> parts[k][i] != c
    ensures forall k, i :: 0 <= k < |StrippedNonEmpty(parts)| && 0 <= i < |StrippedNonEmpty(parts)[k]| ==>
      StrippedNonEmpty(parts)[k][i] != c
    decreases |parts|
  {
    if parts != [] {
      StrippedNonEmptyNoSep(parts[1..], c);
      StripIsSlice(parts[0]);
      assert forall k :: 1 <= k < |parts| ==> parts[1..][k - 1] == parts[k];
    }
  }

  lemma {:induction false} SplitOnNone(s: string, sep: char)
    requires forall i :: 0 <= i < |s| ==> s[i] != sep
    ensures SplitOn(s, sep) == [s]
  {
    FindFromAbsent(s, sep, 0);
  }

  lemma {:induction false} SplitOnFirst(a: string, b: string, sep: char)
    requires forall i :: 0 <= i < |a| ==> a[i] != sep
    ensures SplitOn(a + [sep] + b, sep) == [a] + SplitOn(b, sep)
  {
    var s := a + [sep] + b;
    assert forall k :: 0 <= k < |a| ==> s[k] == a[k];
    FindFromIs(s, sep, 0, |a|);
    assert s[..|a|] == a && s[|a| + 1..] == b;
  }

  /** An address of three comma-separated pieces splits into exactly those pieces. */
  lemma SplitThree(street: string, area: string, city: string)
    requires forall i :: 0 <= i < |street| ==> street[i] != ARABIC_COMMA
    requires forall i :: 0 <= i < |area| ==> area[i] != ARABIC_COMMA
    requires forall i :: 0 <= i < |city| ==> city[i] != ARABIC_COMMA
    ensures SplitOn(street + [ARABIC_COMMA] + area + [ARABIC_COMMA] + city, ARABIC_COMMA) == [street, area, city]
  {
    var rest := area + [ARABIC_COMMA] + city;
    SplitOnFirst(area, city, ARABIC_COMMA);
    SplitOnNone(city, ARABIC_COMMA);
    assert SplitOn(rest, ARABIC_COMMA) == [area, city];
    SplitOnFirst(street, rest, ARABIC_COMMA);
    SeqAssoc(street + [ARABIC_COMMA], area, [ARABIC_COMMA]);
    SeqAssoc(street + [ARABIC_COMMA], area + [ARABIC_COMMA], city);
    assert street + [ARABIC_COMMA] + area + [ARABIC_COMMA] + city == street + [ARABIC_COMMA] + rest;
  }

  /** For "street، area، city" the area is the middle piece, stripped. */
  lemma AreaOfThreeParts(street: string, area: string, city: string)
    requires forall i :: 0 <= i < |street| ==> street[i] != ARABIC_COMMA
    requires forall i :: 0 <= i < |area| ==> area[i] != ARABIC_COMMA
    requires forall i :: 0 <= i < |city| ==> city[i] != ARABIC_COMMA
    requires Strip(street) != [] && Strip(area) != [] && Strip(city) != []
    ensures AreaOf(street + [ARABIC_COMMA] + area + [ARABIC_COMMA] + city) == Strip(area)
  {
    SplitThree(street, area, city);
    StrippedThree(street, area, city);
  }

  lemma StrippedThree(a: string, b: string, c: string)
    requires Strip(a) != [] && Strip(b) != [] && Strip(c) != []
    ensures StrippedNonEmpty([a, b, c]) == [Strip(a), Strip(b), Strip(c)]
  {
    assert [c][1..] == [];
    assert StrippedNonEmpty([c]) == [Strip(c)];
    assert [b, c][1..] == [c];
    assert StrippedNonEmpty([b, c]) == [Strip(b), Strip(c)];
    assert [a, b, c][1..] == [b, c];
  }

  /** An address without an Arabic comma has no area. */
  lemma AreaOfOnePiece(address: string)
    requires forall i :: 0 <= i < |address| ==> address[i] != ARABIC_COMMA
    ensures AreaOf(address) == []
  {
    SplitOnNone(address, ARABIC_COMMA);
  }

  /** `"\n".join(lines) or "—"` over the fact lines of the places. */
  function Facts(places: seq<Place>): (r: string)
  {
    var j := Join("\n", Mapped(places, FactLine));
    if j == [] then "—" else j
  }

  /** The fact block is "—" exactly when there are no places, and one place gives its own line. */
  lemma FactsShape(places: seq<Place>, p: Place)
    ensures Facts(places) == "—" <==> places == []
    ensures Facts([p]) == FactLine(p)
  {
    var lines := Mapped(places, FactLine);
    if places != [] {
      References.JoinNotDash(lines);
      assert Join("\n", lines) != [] by {
        if |lines| > 1 {
          assert Join("\n", lines) == lines[0] + "\n" + Join("\n", lines[1..]);
        }
      }
    }
    assert Mapped([p], FactLine) == [FactLine(p)];
  }

  /** `facts_markdown(places)`: the loop that appends one line per place, then the join. */
  method FactsMarkdown(places: seq<Place>) returns (r: string)
    ensures r == Facts(places)
  {
    var lines: seq<string> := [];
    for i := 0 to |places|
      invariant lines == Mapped(places[..i], FactLine)
    {
      MappedStep(places, FactLine, i);
      var p := places[i];
      var area := "";
      var parts := StrippedNonEmpty(SplitOn(p.address, ARABIC_COMMA));
      if |parts| >= 2 {
        area := parts[|parts| - 2];
      }
      var piece := "- **" + p.name + "** — الأوقات (الخميس): " + p.thursdayRange + "؛ السعر: " + p.priceBand
        + (if area != [] then "؛ المنطقة: " + area else "");
      assert piece == FactLine(p);
      lines := lines + [piece];
    }
    assert places[..|places|] == places;
    r := Join("\n", lines);
    if r == [] {
      r := "—";
    }
  }
}
