/**
 * Required keywords: the `keyword | min=N` list an editor types, the
 * diacritic-insensitive occurrence count of a phrase in the article, and the
 * enforcement report saying which keywords fall short and by how much.
 */
module Keywords {
  import opened Text
  import opened Collections

  // ----- parse_required_keywords -----

  /** A match of the minimum marker: where it starts and where its digits lie. */
  datatype Marker = Marker(start: nat, digitsStart: nat, digitsEnd: nat)

  /** The letters "min" in any case at position `a`. */
  predicate MinAt(s: string, a: nat) {
    a + 3 <= |s| && MatchesLetter(s[a], 'm') && MatchesLetter(s[a + 1], 'i') && MatchesLetter(s[a + 2], 'n')
  }

  /** The match of `\|\s*min\s*=\s*(\d+)` that starts at position `i` of `s`, if there is one. */
  function MarkerAt(s: string, i: nat): (m: Option<Marker>)
    requires i <= |s|
    ensures m.Some? ==> m.value.start == i && i < m.value.digitsStart < m.value.digitsEnd <= |s| && s[i] == '|'
    ensures m.Some? ==> forall k :: m.value.digitsStart <= k < m.value.digitsEnd ==> IsDecimalDigit(s[k])
    ensures m.Some? && m.value.digitsEnd < |s| ==> !IsDecimalDigit(s[m.value.digitsEnd])
  {
    if i == |s| || s[i] != '|' then None
    else
      var a := SkipSpaces(s, i + 1);
      if !MinAt(s, a) then None
      else
        var b := SkipSpaces(s, a + 3);
        if b == |s| || s[b] != '=' then None
        else
          var c := SkipSpaces(s, b + 1);
          var d := SkipDigits(s, c);
          if d == c then None else Some(Marker(i, c, d))
  }

  /** `re.search`: the leftmost marker at or after position `i`. */
  function FindMarker(s: string, i: nat): (m: Option<Marker>)
    requires i <= |s|
    ensures m.Some? ==> i <= m.value.start < |s|
    decreases |s| - i
  {
    if i == |s| then None
    else if s[i] == '|' && MarkerAt(s, i).Some? then MarkerAt(s, i)
    else FindMarker(s, i + 1)
  }

  /** What the search returns is a marker at the position it reports. */
  lemma {:induction false} FindMarkerFinds(s: string, i: nat)
    requires i <= |s|
    ensures FindMarker(s, i).Some? ==> MarkerAt(s, FindMarker(s, i).value.start) == FindMarker(s, i)
    decreases |s| - i
  {
    if i < |s| && !(s[i] == '|' && MarkerAt(s, i).Some?) {
      FindMarkerFinds(s, i + 1);
    }
  }

  /** `max(1, int(m.group(1)))` for a marker found in `line`. */
  function MinimumOf(line: string, m: Marker): (n: nat)
    requires m.start < |line| && MarkerAt(line, m.start) == Some(m)
    ensures n >= 1
  {
    var digits := line[m.digitsStart..m.digitsEnd];
    assert forall k :: 0 <= k < |digits| ==> digits[k] == line[m.digitsStart + k];
    var v := DigitsValue(digits);
    if v < 1 then 1 else v
  }

  /**
   * One line of the specification: its stripped keyword and minimum, or
   * nothing for a blank line or one whose keyword strips to nothing.
   */
  function ParseLine(raw: string): (r: Option<(string, nat)>)
    ensures r.Some? ==> r.value.0 != [] && r.value.1 >= 1
    ensures r.Some? ==> !IsSpace(r.value.0[0]) && !IsSpace(r.value.0[|r.value.0| - 1])
    ensures Strip(raw) == [] ==> r.None?
  {
    var line := Strip(raw);
    if line == [] then None
    else
      FindMarkerFinds(line, 0);
      match FindMarker(line, 0)
      case None => Some((line, 1))
      case Some(m) =>
        var kw := Strip(line[..m.start]);
        if kw == [] then None else Some((kw, MinimumOf(line, m)))
  }

  /** The pairs the lines yield, in line order. */
  function ParsedLines(lines: seq<string>): (r: seq<(string, nat)>)
    ensures |r| <= |lines|
    ensures forall k :: 0 <= k < |r| ==> r[k].0 != [] && r[k].1 >= 1
    decreases |lines|
  {
    if lines == [] then []
    else
      var last := ParseLine(lines[|lines| - 1]);
      ParsedLines(lines[..|lines| - 1]) + (if last.Some? then [last.value] else [])
  }

  /** `parse_required_keywords(spec)`. */
  function RequiredKeywords(spec: string): seq<(string, nat)> {
    ParsedLines(SplitLines(spec))
  }

  /** The loop of `parse_required_keywords`, appending one pair per line that yields a keyword. */
  method ParseRequiredKeywords(spec: string) returns (out: seq<(string, nat)>)
    ensures out == RequiredKeywords(spec)
    ensures forall k :: 0 <= k < |out| ==> out[k].0 != [] && out[k].1 >= 1
  {
    var lines := SplitLines(spec);
    out := [];
    for i := 0 to |lines|
      invariant out == ParsedLines(lines[..i])
    {
      assert lines[..i + 1][..i] == lines[..i];
      var pair := ParseOne(lines[i]);
      if pair.Some? {
        out := out + [pair.value];
      }
    }
    assert lines[..|lines|] == lines;
  }

  /** The body of the loop for one raw line: strip, search for the marker, cut the keyword before it. */
  method ParseOne(raw: string) returns (pair: Option<(string, nat)>)
    ensures pair == ParseLine(raw)
  {
    pair := None;
    var line := Strip(raw);
    if line != [] {
      var kw := line;
      var m := FindMarker(line, 0);
      FindMarkerFinds(line, 0);
      var minCount := 1;
      if m.Some? {
        minCount := MinimumOf(line, m.value);
        kw := Strip(line[..m.value.start]);
      }
      if kw != [] {
        pair := Some((kw, minCount));
      }
    }
  }

  /** Parsing works line by line: the pairs of two blocks of lines are the pairs of each, in order. */
  lemma {:induction false} ParsedLinesAppend(a: seq<string>, b: seq<string>)
    ensures ParsedLines(a + b) == ParsedLines(a) + ParsedLines(b)
    decreases |b|
  {
    if b == [] {
      assert a + b == a;
    } else {
      var init, last := b[..|b| - 1], ParseLine(b[|b| - 1]);
      var extra := if last.Some? then [last.value] else [];
      assert (a + b)[..|a + b| - 1] == a + init && (a + b)[|a + b| - 1] == b[|b| - 1];
      assert ParsedLines(a + b) == ParsedLines(a + init) + extra;
      assert ParsedLines(b) == ParsedLines(init) + extra;
      ParsedLinesAppend(a, init);
      var x, y := ParsedLines(a), ParsedLines(init);
      assert (x + y) + extra == x + (y + extra);
    }
  }

  /** A non-blank line without '|' is its own stripped keyword, needed once. */
  lemma PlainLine(raw: string)
    requires forall k :: 0 <= k < |raw| ==> raw[k] != '|'
    requires Strip(raw) != []
    ensures ParseLine(raw) == Some((Strip(raw), 1))
  {
    var line := Strip(raw);
    StripIsSlice(raw);
    NoMarkerWithoutBar(line, 0);
  }

  lemma {:induction false} NoMarkerWithoutBar(s: string, i: nat)
    requires i <= |s|
    requires forall k :: 0 <= k < |s| ==> s[k] != '|'
    ensures FindMarker(s, i) == None
    decreases |s| - i
  {
    if i < |s| {
      NoMarkerWithoutBar(s, i + 1);
    }
  }

  /** The line `keyword | min=N` in the documented format. */
  function FormatLine(kw: string, n: nat): string {
    kw + " | min=" + NatToString(n)
  }

  /**
   * Writing a keyword and its minimum in the documented format and parsing
   * the line gives the keyword back with the minimum raised to at least 1.
   */
  lemma ParseFormattedLine(kw: string, n: nat)
    requires kw != [] && !IsSpace(kw[0]) && !IsSpace(kw[|kw| - 1])
    requires forall k :: 0 <= k < |kw| ==> kw[k] != '|'
    ensures ParseLine(FormatLine(kw, n)) == Some((kw, if n < 1 then 1 else n))
  {
    var digits := NatToString(n);
    var line := FormatLine(kw, n);
    var p := |kw| + 1;
    assert line == kw + [' ', '|', ' ', 'm', 'i', 'n', '='] + digits;
    assert line[|line| - 1] == digits[|digits| - 1];
    StripUnchanged(line);
    SearchFormattedLine(kw, n);
    assert line[..p] == kw + [' '];
    StripTrailingSpace(kw);
    assert line[p + 6..|line|] == digits;
    DigitsOfNatToString(n);
  }

  /** The search finds the formatted line's own marker, after the keyword. */
  lemma SearchFormattedLine(kw: string, n: nat)
    requires forall k :: 0 <= k < |kw| ==> kw[k] != '|'
    ensures FindMarker(FormatLine(kw, n), 0) == Some(Marker(|kw| + 1, |kw| + 7, |FormatLine(kw, n)|))
  {
    var line := FormatLine(kw, n);
    var p := |kw| + 1;
    FormatLineHead(kw, n);
    FirstMarkerAt(line, 0, p);
    MarkerOfFormattedLine(kw, n);
    assert FindMarker(line, p) == MarkerAt(line, p);
  }

  /** The formatted line starts with the keyword, then " |". */
  lemma FormatLineHead(kw: string, n: nat)
    ensures var line := FormatLine(kw, n);
      |kw| + 2 < |line| && line[|kw|] == ' ' && line[|kw| + 1] == '|'
      && forall j :: 0 <= j < |kw| ==> line[j] == kw[j]
  {
    var line := FormatLine(kw, n);
    assert line == kw + [' ', '|', ' ', 'm', 'i', 'n', '='] + NatToString(n);
  }

  /** In a formatted line the marker sits right after the keyword and its digits run to the end. */
  lemma MarkerOfFormattedLine(kw: string, n: nat)
    requires forall k :: 0 <= k < |kw| ==> kw[k] != '|'
    ensures MarkerAt(FormatLine(kw, n), |kw| + 1) == Some(Marker(|kw| + 1, |kw| + 7, |FormatLine(kw, n)|))
  {
    var digits := NatToString(n);
    var line := FormatLine(kw, n);
    var p := |kw| + 1;
    assert line == kw + [' ', '|', ' ', 'm', 'i', 'n', '='] + digits;
    assert line[p] == '|' && line[p + 1] == ' ' && line[p + 2] == 'm' && line[p + 3] == 'i' && line[p + 4] == 'n';
    assert line[p + 5] == '=' && line[p + 6] == digits[0];
    assert SkipSpaces(line, p + 1) == p + 2;
    assert MinAt(line, p + 2);
    assert SkipSpaces(line, p + 5) == p + 5;
    assert SkipSpaces(line, p + 6) == p + 6;
    forall k | p + 6 <= k < |line| ensures IsDecimalDigit(line[k]) {
      assert line[k] == digits[k - (p + 6)];
    }
    assert SkipDigits(line, p + 6) == |line|;
  }

  /** The search skips every position before the first '|'. */
  lemma {:induction false} FirstMarkerAt(s: string, i: nat, p: nat)
    requires i <= p <= |s|
    requires forall j :: i <= j < p ==> s[j] != '|'
    ensures FindMarker(s, i) == FindMarker(s, p)
    decreases p - i
  {
    if i < p {
      FirstMarkerAt(s, i + 1, p);
    }
  }

  /** The one-line specification in the documented format yields exactly that keyword. */
  lemma RequiredKeywordsOfOneLine(kw: string, n: nat)
    requires kw != [] && !IsSpace(kw[0]) && !IsSpace(kw[|kw| - 1])
    requires forall k :: 0 <= k < |kw| ==> kw[k] != '|' && !IsLineBreak(kw[k])
    ensures RequiredKeywords(FormatLine(kw, n)) == [(kw, if n < 1 then 1 else n)]
  {
    var line := FormatLine(kw, n);
    var digits := NatToString(n);
    assert line == kw + [' ', '|', ' ', 'm', 'i', 'n', '='] + digits;
    forall k | 0 <= k < |line|
      ensures !IsLineBreak(line[k])
    {
      if k >= |line| - |digits| {
        assert line[k] == digits[k - (|line| - |digits|)];
      }
    }
    OneLine(line);
    ParseFormattedLine(kw, n);
    assert ParsedLines([line]) == ParsedLines([]) + [(kw, if n < 1 then 1 else n)];
  }

  // ----- count_occurrences -----

  /** `re.escape(p)` searched with `re.IGNORECASE` matches at the very start of `t`. */
  predicate MatchesAt(t: string, p: string) {
    |p| <= |t| && forall i :: 0 <= i < |p| ==> SameIgnoringCase(t[i], p[i])
  }

  /**
   * `len(re.findall(re.escape(p), t, flags=re.IGNORECASE))`: the matches
   * found left to right, each search resuming after the previous match. An
   * empty pattern matches at every one of the `|t| + 1` positions.
   */
  function CountMatches(t: string, p: string): (n: nat)
    decreases |t|
  {
    if p == [] then |t| + 1
    else if |t| < |p| then 0
    else if MatchesAt(t, p) then 1 + CountMatches(t[|p|..], p)
    else CountMatches(t[1..], p)
  }

  /** Non-overlapping matches of a non-empty phrase never cover more than the text. */
  lemma {:induction false} CountMatchesBound(t: string, p: string)
    requires p != []
    ensures CountMatches(t, p) * |p| <= |t|
    decreases |t|
  {
    if |t| >= |p| {
      if MatchesAt(t, p) {
        CountMatchesBound(t[|p|..], p);
        MatchStep(CountMatches(t[|p|..], p), |p|, |t|);
      } else {
        CountMatchesBound(t[1..], p);
      }
    }
  }

  lemma MatchStep(rest: nat, len: nat, total: nat)
    requires len <= total && rest * len <= total - len
    ensures (1 + rest) * len <= total
  {
  }

  /** `k` copies of a phrase back to back. */
  function Copies(p: string, k: nat): (r: string)
    ensures |r| == k * |p|
  {
    if k == 0 then [] else p + Copies(p, k - 1)
  }

  /** The phrase repeated `k` times holds exactly `k` of its matches. */
  lemma {:induction false} CountMatchesOfCopies(p: string, k: nat)
    requires p != []
    ensures CountMatches(Copies(p, k), p) == k
  {
    if k > 0 {
      var t := Copies(p, k);
      assert t == p + Copies(p, k - 1);
      assert MatchesAt(t, p) by {
        forall i | 0 <= i < |p| ensures SameIgnoringCase(t[i], p[i]) { assert t[i] == p[i]; }
      }
      assert t[|p|..] == Copies(p, k - 1);
      CountMatchesOfCopies(p, k - 1);
    }
  }

  /** The count ignores ASCII case in the phrase: lowering it changes nothing. */
  lemma {:induction false} CountMatchesIgnoresCase(t: string, p: string)
    ensures CountMatches(t, Lower(p)) == CountMatches(t, p)
    decreases |t|
  {
    var q := Lower(p);
    if p != [] && |t| >= |p| {
      assert MatchesAt(t, q) <==> MatchesAt(t, p) by {
        forall i | 0 <= i < |p| ensures SameIgnoringCase(t[i], q[i]) <==> SameIgnoringCase(t[i], p[i]) {
          LowerCharIdempotent(p[i]);
        }
      }
      if MatchesAt(t, p) {
        CountMatchesIgnoresCase(t[|p|..], p);
      } else {
        CountMatchesIgnoresCase(t[1..], p);
      }
    }
  }

  /**
   * `count_occurrences`: 0 when the text or the phrase is empty, otherwise the
   * matches of the phrase in the text, both taken through `stripDiacritics`.
   */
  function CountOccurrences(text: string, phrase: string, stripDiacritics: string -> string): (n: nat)
    ensures text == [] || phrase == [] ==> n == 0
    ensures text != [] && phrase != [] ==> n == CountMatches(stripDiacritics(text), stripDiacritics(phrase))
  {
    if text == [] || phrase == [] then 0 else CountMatches(stripDiacritics(text), stripDiacritics(phrase))
  }

  // ----- enforce_report -----

  /** One entry of `report["items"]`. */
  datatype KeywordCheck = KeywordCheck(keyword: string, min: int, found: nat, ok: bool)

  /** One entry of `report["missing"]`. */
  datatype Shortfall = Shortfall(keyword: string, need: int)

  datatype Enforcement = Enforcement(items: seq<KeywordCheck>, missing: seq<Shortfall>, ok: bool)

  function CheckOf(text: string, kw: string, need: int, stripDiacritics: string -> string): (c: KeywordCheck)
    ensures c.keyword == kw && c.min == need
    ensures c.ok <==> c.found >= c.min
  {
    var have := CountOccurrences(text, kw, stripDiacritics);
    KeywordCheck(kw, need, have, have >= need)
  }

  /** An item whose `ok` flag says whether its keyword was found often enough. */
  predicate Consistent(c: KeywordCheck) { c.ok <==> c.found >= c.min }

  /** The items, one per required pair, in order. */
  function Checks(text: string, required: seq<(string, int)>, stripDiacritics: string -> string): (r: seq<KeywordCheck>)
    ensures |r| == |required|
    ensures forall i :: 0 <= i < |r| ==> r[i].keyword == required[i].0 && r[i].min == required[i].1
    ensures forall i :: 0 <= i < |r| ==> Consistent(r[i])
  {
    Mapped(required, (q: (string, int)) => CheckOf(text, q.0, q.1, stripDiacritics))
  }

  /** The failing items with what each still needs, in order. */
  function Shortfalls(items: seq<KeywordCheck>): (r: seq<Shortfall>)
    ensures |r| <= |items|
    decreases |items|
  {
    if items == [] then []
    else
      var last := items[|items| - 1];
      Shortfalls(items[..|items| - 1]) + (if last.ok then [] else [Shortfall(last.keyword, last.min - last.found)])
  }

  /** `missing` lists exactly the failing items, each needing a positive number of further uses. */
  lemma {:induction false} ShortfallsAreFailures(items: seq<KeywordCheck>)
    requires forall i :: 0 <= i < |items| ==> Consistent(items[i])
    ensures forall s :: s in Shortfalls(items) <==>
      exists i :: 0 <= i < |items| && !items[i].ok && s == Shortfall(items[i].keyword, items[i].min - items[i].found)
    ensures forall s :: s in Shortfalls(items) ==> s.need > 0
    decreases |items|
  {
    if items != [] {
      var init := items[..|items| - 1];
      ShortfallsAreFailures(init);
      forall s
        ensures s in Shortfalls(items) <==>
          exists i :: 0 <= i < |items| && !items[i].ok && s == Shortfall(items[i].keyword, items[i].min - items[i].found)
      {
        if s in Shortfalls(init) {
          var i :| 0 <= i < |init| && !init[i].ok && s == Shortfall(init[i].keyword, init[i].min - init[i].found);
          assert items[i] == init[i];
        }
        if exists i :: 0 <= i < |items| && !items[i].ok && s == Shortfall(items[i].keyword, items[i].min - items[i].found) {
          var i :| 0 <= i < |items| && !items[i].ok && s == Shortfall(items[i].keyword, items[i].min - items[i].found);
          if i < |init| {
            assert init[i] == items[i];
          }
        }
      }
    }
  }

  /** Nothing is missing exactly when every keyword was found at least its minimum number of times. */
  lemma {:induction false} NoShortfallIffAllMet(items: seq<KeywordCheck>)
    requires forall i :: 0 <= i < |items| ==> Consistent(items[i])
    ensures Shortfalls(items) == [] <==> forall i :: 0 <= i < |items| ==> items[i].found >= items[i].min
    decreases |items|
  {
    if items != [] {
      var init := items[..|items| - 1];
      assert forall i :: 0 <= i < |init| ==> init[i] == items[i];
      NoShortfallIffAllMet(init);
    }
  }

  lemma ChecksStep(text: string, required: seq<(string, int)>, i: nat, stripDiacritics: string -> string)
    requires i < |required|
    ensures Checks(text, required[..i + 1], stripDiacritics)
      == Checks(text, required[..i], stripDiacritics) + [CheckOf(text, required[i].0, required[i].1, stripDiacritics)]
  {
    assert required[..i + 1][..i] == required[..i];
  }

  lemma ShortfallsStep(items: seq<KeywordCheck>, item: KeywordCheck)
    ensures Shortfalls(items + [item])
      == Shortfalls(items) + (if item.ok then [] else [Shortfall(item.keyword, item.min - item.found)])
  {
    assert (items + [item])[..|items|] == items;
  }

  /** `enforce_report`: the loop filling `items` and `missing`, then the overall verdict. */
  method EnforceReport(text: string, required: seq<(string, int)>, stripDiacritics: string -> string)
    returns (report: Enforcement)
    ensures report.items == Checks(text, required, stripDiacritics)
    ensures report.missing == Shortfalls(report.items)
    ensures report.ok <==> forall i :: 0 <= i < |report.items| ==> report.items[i].found >= report.items[i].min
  {
    var items: seq<KeywordCheck> := [];
    var missing: seq<Shortfall> := [];
    for i := 0 to |required|
      invariant items == Checks(text, required[..i], stripDiacritics)
      invariant missing == Shortfalls(items)
    {
      var item := CheckOf(text, required[i].0, required[i].1, stripDiacritics);
      ChecksStep(text, required, i, stripDiacritics);
      ShortfallsStep(items, item);
      items := items + [item];
      if !item.ok {
        missing := missing + [Shortfall(item.keyword, item.min - item.found)];
      }
    }
    assert required[..|required|] == required;
    NoShortfallIffAllMet(items);
    report := Enforcement(items, missing, |missing| == 0);
  }
}
