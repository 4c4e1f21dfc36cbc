/**
 * Character classes and string helpers with the meaning Python's `str`
 * methods give them: `isspace`, `strip`, `split()`, `splitlines`, `join`,
 * `startswith`/`endswith`, `lower` (on ASCII) and substring tests.
 */
module Text {

  /** `str.isspace()`, which is also what `\s` matches in a str pattern. */
  predicate IsSpace(c: char) {
    c == ' ' || ('\t' <= c <= '\r') || ('\U{1c}' <= c <= '\U{1f}')
    || c == '\U{85}' || c == '\U{a0}' || c == '\U{1680}'
    || ('\U{2000}' <= c <= '\U{200a}') || c == '\U{2028}' || c == '\U{2029}'
    || c == '\U{202f}' || c == '\U{205f}' || c == '\U{3000}'
  }

  predicate IsNotSpace(c: char) { !IsSpace(c) }

  /** The line boundaries `str.splitlines()` breaks at. */
  predicate IsLineBreak(c: char) {
    c == '\n' || c == '\r' || c == '\U{0b}' || c == '\U{0c}'
    || ('\U{1c}' <= c <= '\U{1e}') || c == '\U{85}' || c == '\U{2028}' || c == '\U{2029}'
  }

  predicate IsAsciiUpper(c: char) { 'A' <= c <= 'Z' }
  predicate IsAsciiLower(c: char) { 'a' <= c <= 'z' }
  predicate IsAsciiDigit(c: char) { '0' <= c <= '9' }

  predicate IsAsciiLetter(c: char) { IsAsciiUpper(c) || IsAsciiLower(c) }

  /** The Arabic block U+0600..U+06FF that the source's character classes name. */
  predicate IsArabicBlock(c: char) { '\U{600}' <= c <= '\U{6ff}' }

  /**
   * The decimal digits `\d` matches and `int()` parses, restricted to the
   * blocks this application meets: ASCII, Arabic-Indic and extended Arabic-Indic.
   */
  predicate IsDecimalDigit(c: char) {
    IsAsciiDigit(c) || ('\U{660}' <= c <= '\U{669}') || ('\U{6f0}' <= c <= '\U{6f9}')
  }

  function DigitValue(c: char): (d: nat)
    requires IsDecimalDigit(c)
    ensures d <= 9
  {
    if IsAsciiDigit(c) then c as int - '0' as int
    else if c <= '\U{669}' then c as int - 0x660
    else c as int - 0x6f0
  }

  /** `int()` of a run of decimal digits. */
  function DigitsValue(s: string): nat
    requires forall i :: 0 <= i < |s| ==> IsDecimalDigit(s[i])
    decreases |s|
  {
    if s == [] then 0 else DigitsValue(s[..|s| - 1]) * 10 + DigitValue(s[|s| - 1])
  }

  /** `str.lower()` on one character, for the ASCII letters. */
  function LowerChar(c: char): char {
    if IsAsciiUpper(c) then (c as int + 32) as char else c
  }

  function Lower(s: string): string {
    seq(|s|, i requires 0 <= i < |s| => LowerChar(s[i]))
  }

  /** Case-insensitive equality of two characters, as `re.IGNORECASE` compares ASCII letters. */
  predicate SameIgnoringCase(a: char, b: char) { LowerChar(a) == LowerChar(b) }

  /**
   * Whether `c` matches the lower-case ASCII letter `letter` written in a
   * pattern compiled with `re.IGNORECASE`: either ASCII case, and also
   * U+0130 and U+0131 for 'i', U+017F for 's' and U+212A for 'k'.
   */
  predicate MatchesLetter(c: char, letter: char) {
    LowerChar(c) == letter
    || (letter == 'i' && (c == '\U{130}' || c == '\U{131}'))
    || (letter == 's' && c == '\U{17f}')
    || (letter == 'k' && c == '\U{212a}')
  }

  predicate StartsWith(s: string, prefix: string) {
    |prefix| <= |s| && s[..|prefix|] == prefix
  }

  predicate EndsWith(s: string, suffix: string) {
    |suffix| <= |s| && s[|s| - |suffix|..] == suffix
  }

  /** Python's `sub in s`; the empty string is in every string. */
  predicate Contains(s: string, sub: string)
    decreases |s|
  {
    StartsWith(s, sub) || (s != [] && Contains(s[1..], sub))
  }

  /** Length of the longest prefix of `s` whose characters all satisfy `p`. */
  function Span(s: string, p: char -> bool): (n: nat)
    ensures n <= |s|
    ensures forall i :: 0 <= i < n ==> p(s[i])
    ensures n < |s| ==> !p(s[n])
    decreases |s|
  {
    if s == [] || !p(s[0]) then 0 else 1 + Span(s[1..], p)
  }

  /** The span is pinned down by its two defining facts. */
  lemma {:induction false} SpanIs(s: string, p: char -> bool, n: nat)
    requires n <= |s| && (forall i :: 0 <= i < n ==> p(s[i])) && (n < |s| ==> !p(s[n]))
    ensures Span(s, p) == n
    decreases n
  {
    if n > 0 {
      SpanIs(s[1..], p, n - 1);
    }
  }

  /** `s.lstrip()` with `drop` as the set of characters stripped. */
  function TrimLeft(s: string, drop: char -> bool): (r: string)
    ensures |r| <= |s| && r == s[|s| - |r|..]
    ensures r == [] || !drop(r[0])
    ensures forall i :: 0 <= i < |s| - |r| ==> drop(s[i])
  {
    s[Span(s, drop)..]
  }

  /** `s.rstrip()` with `drop` as the set of characters stripped. */
  function TrimRight(s: string, drop: char -> bool): (r: string)
    ensures |r| <= |s| && r == s[..|r|]
    ensures r == [] || !drop(r[|r| - 1])
    ensures forall i :: |r| <= i < |s| ==> drop(s[i])
    decreases |s|
  {
    if s != [] && drop(s[|s| - 1]) then TrimRight(s[..|s| - 1], drop) else s
  }

  /** `s.strip()`: whitespace removed from both ends. */
  function Strip(s: string): (r: string)
    ensures r == [] || (!IsSpace(r[0]) && !IsSpace(r[|r| - 1]))
    ensures |r| <= |s|
  {
    TrimRight(TrimLeft(s, IsSpace), IsSpace)
  }

  /** Every character `strip` keeps comes from the original string. */
  lemma StripIsSlice(s: string)
    ensures forall i :: 0 <= i < |Strip(s)| ==> Strip(s)[i] in s
  {
    var l := TrimLeft(s, IsSpace);
    var r := Strip(s);
    forall i | 0 <= i < |r| ensures r[i] in s {
      assert r[i] == l[i] == s[|s| - |l| + i];
    }
  }

  /** A string with no whitespace at either end is its own `strip()`. */
  lemma StripUnchanged(s: string)
    requires s != [] && !IsSpace(s[0]) && !IsSpace(s[|s| - 1])
    ensures Strip(s) == s
  {
    assert Span(s, IsSpace) == 0;
    assert s[0..] == s;
  }

  /** `(s + " ").strip() == s` for an already stripped, non-empty `s`. */
  lemma StripTrailingSpace(s: string)
    requires s != [] && !IsSpace(s[0]) && !IsSpace(s[|s| - 1])
    ensures Strip(s + [' ']) == s
  {
    var t := s + [' '];
    assert Span(t, IsSpace) == 0;
    assert t[0..] == t;
    assert t[..|t| - 1] == s;
  }

  /** `(" " + s).strip() == s` for an already stripped, non-empty `s`. */
  lemma StripLeadingSpace(s: string)
    requires s != [] && !IsSpace(s[0]) && !IsSpace(s[|s| - 1])
    ensures Strip([' '] + s) == s
  {
    var t := [' '] + s;
    assert Span(t, IsSpace) == 1 by {
      assert Span(t[1..], IsSpace) == 0;
    }
    assert t[1..] == s;
    StripUnchanged(s);
  }

  lemma LowerCharIdempotent(c: char)
    ensures LowerChar(LowerChar(c)) == LowerChar(c)
  {
  }

  /** A non-empty string without line breaks is a single line. */
  lemma OneLine(s: string)
    requires s != []
    requires forall i :: 0 <= i < |s| ==> !IsLineBreak(s[i])
    ensures SplitLines(s) == [s]
  {
    assert LineBreakFrom(s, 0) == |s|;
  }

  /** The maximal runs of characters satisfying `p`, left to right. */
  function Runs(s: string, p: char -> bool): (r: seq<string>)
    ensures forall k :: 0 <= k < |r| ==> r[k] != []
    ensures forall k, i :: 0 <= k < |r| && 0 <= i < |r[k]| ==> p(r[k][i])
    decreases |s|
  {
    if s == [] then []
    else if !p(s[0]) then Runs(s[1..], p)
    else
      var n := Span(s, p);
      [s[..n]] + Runs(s[n..], p)
  }

  /** A character outside the class separates the runs before it from those after it. */
  lemma {:induction false} RunsSplitAt(a: string, c: char, b: string, p: char -> bool)
    requires !p(c)
    ensures Runs(a + [c] + b, p) == Runs(a, p) + Runs(b, p)
    decreases |a|
  {
    var s := a + [c] + b;
    if a == [] {
      assert s[1..] == b;
    } else if !p(a[0]) {
      assert s[1..] == a[1..] + [c] + b;
      RunsSplitAt(a[1..], c, b, p);
    } else {
      var n := Span(a, p);
      SpanIs(s, p, n);
      assert s[..n] == a[..n];
      assert s[n..] == a[n..] + [c] + b;
      RunsSplitAt(a[n..], c, b, p);
    }
  }

  /** `s.split()` with no separator: the maximal runs of non-whitespace. */
  function SplitWs(s: string): (r: seq<string>)
    ensures forall k :: 0 <= k < |r| ==> r[k] != []
    ensures forall k, i :: 0 <= k < |r| && 0 <= i < |r[k]| ==> !IsSpace(r[k][i])
  {
    Runs(s, IsNotSpace)
  }

  /** Index of the first line break at or after `i`, or `|s|`. */
  function LineBreakFrom(s: string, i: nat): (j: nat)
    requires i <= |s|
    ensures i <= j <= |s|
    ensures j < |s| ==> IsLineBreak(s[j])
    ensures forall k :: i <= k < j ==> !IsLineBreak(s[k])
    decreases |s| - i
  {
    if i == |s| || IsLineBreak(s[i]) then i else LineBreakFrom(s, i + 1)
  }

  /**
   * `s.splitlines()`: the lines without their terminators; "\r\n" is one
   * terminator and a final terminator does not open an empty last line.
   */
  function SplitLines(s: string): (r: seq<string>)
    ensures forall k, i :: 0 <= k < |r| && 0 <= i < |r[k]| ==> !IsLineBreak(r[k][i])
    decreases |s|
  {
    if s == [] then []
    else
      var j := LineBreakFrom(s, 0);
      if j == |s| then [s]
      else
        var next := if s[j] == '\r' && j + 1 < |s| && s[j + 1] == '\n' then j + 2 else j + 1;
        [s[..j]] + SplitLines(s[next..])
  }

  /** `s.find(c, i)`, with "not found" given as `|s|`. */
  function FindFrom(s: string, c: char, i: nat): (j: nat)
    requires i <= |s|
    ensures i <= j <= |s|
    ensures j < |s| ==> s[j] == c
    ensures forall k :: i <= k < j ==> s[k] != c
    decreases |s| - i
  {
    if i == |s| || s[i] == c then i else FindFrom(s, c, i + 1)
  }

  /** The end of the run of whitespace that starts at position `i`. */
  function SkipSpaces(s: string, i: nat): (j: nat)
    requires i <= |s|
    ensures i <= j <= |s|
    ensures forall k :: i <= k < j ==> IsSpace(s[k])
    ensures j < |s| ==> !IsSpace(s[j])
    decreases |s| - i
  {
    if i == |s| || !IsSpace(s[i]) then i else SkipSpaces(s, i + 1)
  }

  /** The end of the run of decimal digits that starts at position `i`. */
  function SkipDigits(s: string, i: nat): (j: nat)
    requires i <= |s|
    ensures i <= j <= |s|
    ensures forall k :: i <= k < j ==> IsDecimalDigit(s[k])
    ensures j < |s| ==> !IsDecimalDigit(s[j])
    decreases |s| - i
  {
    if i == |s| || !IsDecimalDigit(s[i]) then i else SkipDigits(s, i + 1)
  }

  /** `int(str(n)) == n`. */
  lemma {:induction false} DigitsOfNatToString(n: nat)
    ensures forall k :: 0 <= k < |NatToString(n)| ==> IsDecimalDigit(NatToString(n)[k])
    ensures DigitsValue(NatToString(n)) == n
    decreases n
  {
    var s := NatToString(n);
    if n >= 10 {
      DigitsOfNatToString(n / 10);
      assert s[..|s| - 1] == NatToString(n / 10);
    }
  }

  /** `s.split(sep)` for a one-character separator: the pieces between separators. */
  function SplitOn(s: string, sep: char): (r: seq<string>)
    ensures r != []
    ensures forall k, i :: 0 <= k < |r| && 0 <= i < |r[k]| ==> r[k][i] != sep
    decreases |s|
  {
    var j := FindFrom(s, sep, 0);
    if j == |s| then [s] else [s[..j]] + SplitOn(s[j + 1..], sep)
  }

  /** `sep.join(parts)`. */
  function Join(sep: string, parts: seq<string>): string
    decreases |parts|
  {
    if parts == [] then ""
    else if |parts| == 1 then parts[0]
    else parts[0] + sep + Join(sep, parts[1..])
  }

  /** Python slicing `s[lo:hi]` with both bounds already non-negative: out-of-range bounds clamp. */
  function Slice(s: string, lo: nat, hi: nat): (r: string)
    ensures |r| <= |s|
    ensures lo <= hi <= |s| ==> r == s[lo..hi]
  {
    var h := if hi <= |s| then hi else |s|;
    if lo <= h then s[lo..h] else ""
  }

  /** Replaces every occurrence of character `a` by `b`, as `str.replace` does for one character. */
  function ReplaceChar(s: string, a: char, b: char): string {
    seq(|s|, i requires 0 <= i < |s| => if s[i] == a then b else s[i])
  }

  /** `[w.lower() for w in ws]`. */
  function LowerAll(ws: seq<string>): (r: seq<string>)
    ensures |r| == |ws|
    ensures forall i :: 0 <= i < |ws| ==> r[i] == Lower(ws[i])
  {
    seq(|ws|, i requires 0 <= i < |ws| => Lower(ws[i]))
  }

  /** `[p.strip() for p in parts if p.strip()]`: the stripped pieces that are not empty, in order. */
  function StrippedNonEmpty(parts: seq<string>): (r: seq<string>)
    ensures |r| <= |parts|
    ensures forall k :: 0 <= k < |r| ==> r[k] != [] && !IsSpace(r[k][0]) && !IsSpace(r[k][|r[k]| - 1])
    decreases |parts|
  {
    if parts == [] then []
    else
      var s := Strip(parts[0]);
      var rest := StrippedNonEmpty(parts[1..]);
      if s == [] then rest else [s] + rest
  }

  /** Every part that does not strip to nothing is kept, stripped. */
  lemma {:induction false} StrippedNonEmptyKeeps(parts: seq<string>)
    ensures forall k :: 0 <= k < |parts| && Strip(parts[k]) != [] ==> Strip(parts[k]) in StrippedNonEmpty(parts)
    decreases |parts|
  {
    if parts != [] {
      StrippedNonEmptyKeeps(parts[1..]);
      assert forall k :: 1 <= k < |parts| ==> parts[k] == parts[1..][k - 1];
    }
  }

  /** `str(n)` for a natural number. */
  function NatToString(n: nat): (r: string)
    ensures r != []
    ensures forall i :: 0 <= i < |r| ==> IsAsciiDigit(r[i])
    decreases n
  {
    var d := ['0' + (n % 10) as char];
    if n < 10 then d else NatToString(n / 10) + d
  }

  // ----- slug characters and regex run replacement -----

  /** The characters a slug keeps: a-z, 0-9 and the Arabic block U+0600-U+06FF. */
  predicate IsSlugChar(c: char) { IsAsciiLower(c) || IsAsciiDigit(c) || IsArabicBlock(c) }
  predicate IsNotSlugChar(c: char) { !IsSlugChar(c) }
  predicate IsDash(c: char) { c == '-' }

  /** `re.sub(P + "+", rep, s)` for a one-character class `P`: every maximal run of characters satisfying `p` becomes one `rep`. */
  function ReplaceRuns(s: string, p: char -> bool, rep: char): (r: string)
    ensures |r| <= |s|
    ensures r == [] <==> s == []
    ensures forall i :: 0 <= i < |r| ==> r[i] == rep || !p(r[i])
    decreases |s|
  {
    if s == [] then []
    else if p(s[0]) then [rep] + ReplaceRuns(s[Span(s, p)..], p, rep)
    else [s[0]] + ReplaceRuns(s[1..], p, rep)
  }

  lemma ReplaceRunsHead(s: string, p: char -> bool, rep: char)
    requires s != []
    ensures p(s[0]) ==> ReplaceRuns(s, p, rep)[0] == rep
    ensures !p(s[0]) ==> ReplaceRuns(s, p, rep)[0] == s[0]
  {
  }

  /** When `rep` is itself in the class, the result never holds two `rep` in a row. */
  lemma {:induction false} ReplaceRunsNoDoubles(s: string, p: char -> bool, rep: char)
    requires p(rep)
    ensures forall i :: 0 <= i < |ReplaceRuns(s, p, rep)| - 1 ==> !(ReplaceRuns(s, p, rep)[i] == rep && ReplaceRuns(s, p, rep)[i + 1] == rep)
    decreases |s|
  {
    if s != [] {
      var r := ReplaceRuns(s, p, rep);
      if p(s[0]) {
        var t := s[Span(s, p)..];
        ReplaceRunsNoDoubles(t, p, rep);
        if t != [] {
          ReplaceRunsHead(t, p, rep);
        }
        assert r == [rep] + ReplaceRuns(t, p, rep);
      } else {
        ReplaceRunsNoDoubles(s[1..], p, rep);
        assert r == [s[0]] + ReplaceRuns(s[1..], p, rep);
      }
    }
  }

  /** A property every character of the input and `rep` have, every character of the result has. */
  lemma {:induction false} ReplaceRunsKeeps(s: string, p: char -> bool, rep: char, q: char -> bool)
    requires q(rep) && forall i :: 0 <= i < |s| ==> q(s[i])
    ensures forall i :: 0 <= i < |ReplaceRuns(s, p, rep)| ==> q(ReplaceRuns(s, p, rep)[i])
    decreases |s|
  {
    if s != [] {
      if p(s[0]) {
        var t := s[Span(s, p)..];
        assert forall i :: 0 <= i < |t| ==> t[i] == s[Span(s, p) + i];
        ReplaceRunsKeeps(t, p, rep, q);
        assert ReplaceRuns(s, p, rep) == [rep] + ReplaceRuns(t, p, rep);
      } else {
        assert forall i :: 0 <= i < |s| - 1 ==> s[1..][i] == s[i + 1];
        ReplaceRunsKeeps(s[1..], p, rep, q);
        assert ReplaceRuns(s, p, rep) == [s[0]] + ReplaceRuns(s[1..], p, rep);
      }
    }
  }

  /** A runs replacement splits after a character outside the class. */
  lemma {:induction false} ReplaceRunsAppend(a: string, b: string, p: char -> bool, rep: char)
    requires a == [] || !p(a[|a| - 1])
    ensures ReplaceRuns(a + b, p, rep) == ReplaceRuns(a, p, rep) + ReplaceRuns(b, p, rep)
    decreases |a|
  {
    if a == [] {
      assert a + b == b;
    } else if !p(a[0]) {
      var t := a[1..];
      assert t == [] || !p(t[|t| - 1]);
      assert (a + b)[0] == a[0] && (a + b)[1..] == t + b;
      ReplaceRunsAppend(t, b, p, rep);
      assert ReplaceRuns(a + b, p, rep) == [a[0]] + ReplaceRuns(t + b, p, rep);
      assert ReplaceRuns(a, p, rep) == [a[0]] + ReplaceRuns(t, p, rep);
      SeqAssoc([a[0]], ReplaceRuns(t, p, rep), ReplaceRuns(b, p, rep));
    } else {
      var n := Span(a, p);
      var t := a[n..];
      assert t == [] || !p(t[|t| - 1]);
      SpanIs(a + b, p, n);
      assert (a + b)[0] == a[0] && (a + b)[n..] == t + b;
      ReplaceRunsAppend(t, b, p, rep);
      assert ReplaceRuns(a + b, p, rep) == [rep] + ReplaceRuns(t + b, p, rep);
      assert ReplaceRuns(a, p, rep) == [rep] + ReplaceRuns(t, p, rep);
      SeqAssoc([rep], ReplaceRuns(t, p, rep), ReplaceRuns(b, p, rep));
    }
  }

  lemma SeqAssoc<T>(x: seq<T>, u: seq<T>, v: seq<T>)
    ensures x + (u + v) == (x + u) + v
  {
  }

  /** A runs replacement changes nothing when every character satisfying `p` is a lone `rep`. */
  lemma {:induction false} ReplaceRunsUnchanged(s: string, p: char -> bool, rep: char)
    requires forall i :: 0 <= i < |s| && p(s[i]) ==> s[i] == rep
    requires forall i :: 0 <= i < |s| - 1 ==> !(p(s[i]) && p(s[i + 1]))
    ensures ReplaceRuns(s, p, rep) == s
    decreases |s|
  {
    if s != [] {
      if p(s[0]) {
        assert Span(s, p) == 1 by {
          if |s| > 1 { assert !p(s[1]); }
        }
      }
      ReplaceRunsUnchanged(s[1..], p, rep);
    }
  }

  /** A slug: non-empty, of slug characters and single inner dashes. */
  predicate IsSlug(v: string) {
    v != [] && v[0] != '-' && v[|v| - 1] != '-'
    && (forall i :: 0 <= i < |v| ==> IsSlugOrDash(v[i]))
    && (forall i :: 0 <= i < |v| - 1 ==> !(v[i] == '-' && v[i + 1] == '-'))
  }

  predicate IsSlugOrDash(c: char) { IsSlugChar(c) || c == '-' }

  /** `s.strip("-")`. */
  function TrimDashes(s: string): (r: string)
    ensures r == [] || (r[0] != '-' && r[|r| - 1] != '-')
    ensures Span(s, IsDash) + |r| <= |s| && r == s[Span(s, IsDash)..Span(s, IsDash) + |r|]
  {
    TrimRight(TrimLeft(s, IsDash), IsDash)
  }

  /** Stripping the dashes off a string of slug characters and single dashes leaves a slug or nothing. */
  lemma TrimDashesSlug(w: string)
    requires forall i :: 0 <= i < |w| ==> IsSlugOrDash(w[i])
    requires forall i :: 0 <= i < |w| - 1 ==> !(w[i] == '-' && w[i + 1] == '-')
    ensures TrimDashes(w) == [] || IsSlug(TrimDashes(w))
  {
    var v := TrimDashes(w);
    var off := Span(w, IsDash);
    assert forall i :: 0 <= i < |v| ==> v[i] == w[off + i];
  }

  /** A slug has no whitespace, so a whitespace-run replacement leaves it alone. */
  lemma SlugHasNoSpace(v: string, rep: char)
    requires IsSlug(v)
    ensures ReplaceRuns(v, IsSpace, rep) == v
    ensures !IsSpace(v[0]) && !IsSpace(v[|v| - 1])
  {
    assert forall i :: 0 <= i < |v| ==> !IsSpace(v[i]) by {
      forall i | 0 <= i < |v| ensures !IsSpace(v[i]) {
        assert IsSlugOrDash(v[i]);
      }
    }
    ReplaceRunsUnchanged(v, IsSpace, rep);
  }

  /** A slug is already lower case. */
  lemma SlugIsLower(v: string)
    requires IsSlug(v)
    ensures Lower(v) == v
  {
    forall i | 0 <= i < |v| ensures LowerChar(v[i]) == v[i] {
      assert IsSlugOrDash(v[i]);
    }
  }
}
