/**
 * The reference list of an article: one URL per line of a text area, given
 * a scheme when it lacks one, kept only with a host, de-duplicated in order;
 * then numbered for citation.
 */
module References {
  import opened Text
  import opened Collections
  import opened Urls

  /** `re.match(r"^https?://", u, re.I)`. */
  predicate HasHttpPrefix(u: string) {
    |u| >= 7 && MatchesLetter(u[0], 'h') && MatchesLetter(u[1], 't') && MatchesLetter(u[2], 't') && MatchesLetter(u[3], 'p')
    && ((u[4] == ':' && u[5] == '/' && u[6] == '/')
        || (|u| >= 8 && MatchesLetter(u[4], 's') && u[5] == ':' && u[6] == '/' && u[7] == '/'))
  }

  /**
   * The reference one line contributes before de-duplication: the stripped
   * line, prefixed with "https://" when it has no http(s) scheme; nothing for
   * a blank line or one whose URL has no host or does not parse.
   */
  function RefOfLine(ln: string): (r: Option<string>)
    ensures r.Some? ==> HasHttpPrefix(r.value) && NetLoc(r.value).Some? && NetLoc(r.value).value != []
    ensures Strip(ln) == [] ==> r.None?
  {
    var u := Strip(ln);
    if u == [] then None
    else
      var v := WithScheme(u);
      match NetLoc(v)
      case Some(host) => if host == [] then None else Some(v)
      case None => None
  }

  /** The URL with "https://" in front when it has no http(s) scheme. */
  function WithScheme(u: string): (v: string)
    ensures HasHttpPrefix(v)
    ensures HasHttpPrefix(u) ==> v == u
    ensures !HasHttpPrefix(u) ==> v == "https://" + u
  {
    if HasHttpPrefix(u) then u
    else
      var v := "https://" + u;
      assert v[..8] == "https://";
      v
  }

  /** The references the lines contribute, in line order, duplicates included. */
  function Candidates(lines: seq<string>): seq<string> {
    Present(lines, RefOfLine)
  }

  /** Every candidate is a reference that normalises to itself. */
  lemma CandidatesAreFixed(lines: seq<string>)
    ensures forall k :: 0 <= k < |Candidates(lines)| ==> RefOfLine(Candidates(lines)[k]) == Some(Candidates(lines)[k])
  {
    forall i | 0 <= i < |lines| && RefOfLine(lines[i]).Some?
      ensures RefOfLine(RefOfLine(lines[i]).value) == RefOfLine(lines[i])
    {
      NormalizedIsFixed(lines[i]);
    }
    PresentFixed(lines, RefOfLine);
  }

  /** `normalize_refs(text)`: the first occurrence of each reference, in line order. */
  function NormalizedRefs(text: string): seq<string> {
    Dedup(Candidates(SplitLines(text)))
  }

  /** The loop of `normalize_refs`, with its `seen` set. */
  method NormalizeRefs(text: string) returns (out: seq<string>)
    ensures out == NormalizedRefs(text)
    ensures Distinct(out)
  {
    var lines := SplitLines(text);
    var seen: set<string> := {};
    out := [];
    for i := 0 to |lines|
      invariant out == Dedup(Candidates(lines[..i]))
      invariant forall u :: u in seen <==> u in out
    {
      CandidatesStep(lines, i);
      var u := Strip(lines[i]);
      if u == [] {
        assert RefOfLine(lines[i]).None?;
        assert Candidates(lines[..i + 1]) == Candidates(lines[..i]);
        continue;
      }
      if !HasHttpPrefix(u) {
        u := "https://" + u;
      }
      assert u == WithScheme(Strip(lines[i]));
      var host := NetLoc(u);
      if host.None? || host.value == [] {
        assert RefOfLine(lines[i]).None?;
        assert Candidates(lines[..i + 1]) == Candidates(lines[..i]);
        continue;
      }
      assert RefOfLine(lines[i]) == Some(u);
      assert Candidates(lines[..i + 1]) == Candidates(lines[..i]) + [u];
      DedupStep(Candidates(lines[..i]), u);
      if u !in seen {
        seen := seen + {u};
        out := out + [u];
      }
    }
    assert lines[..|lines|] == lines;
  }

  lemma CandidatesStep(lines: seq<string>, i: nat)
    requires i < |lines|
    ensures Candidates(lines[..i + 1]) == Candidates(lines[..i])
      + (if RefOfLine(lines[i]).Some? then [RefOfLine(lines[i]).value] else [])
    ensures RefOfLine(lines[i]).Some? <==>
      (Strip(lines[i]) != [] && NetLoc(WithScheme(Strip(lines[i]))).Some? && NetLoc(WithScheme(Strip(lines[i]))).value != [])
    ensures RefOfLine(lines[i]).Some? ==> RefOfLine(lines[i]).value == WithScheme(Strip(lines[i]))
  {
    assert lines[..i + 1][..i] == lines[..i];
  }

  /** Every reference `normalize_refs` returns has an http(s) scheme and a host. */
  lemma NormalizedRefsAreUrls(text: string)
    ensures forall u :: u in NormalizedRefs(text) ==> HasHttpPrefix(u) && NetLoc(u).Some? && NetLoc(u).value != []
  {
    var cs := Candidates(SplitLines(text));
    CandidatesAreFixed(SplitLines(text));
    forall u | u in NormalizedRefs(text)
      ensures HasHttpPrefix(u) && NetLoc(u).Some? && NetLoc(u).value != []
    {
      assert u in cs;
      CandidateIsRef(cs, u);
    }
  }

  lemma CandidateIsRef(cs: seq<string>, u: string)
    requires u in cs && forall k :: 0 <= k < |cs| ==> RefOfLine(cs[k]) == Some(cs[k])
    ensures RefOfLine(u) == Some(u)
  {
    var j :| 0 <= j < |cs| && cs[j] == u;
  }

  /** A reference the normalisation produced normalises to itself. */
  lemma NormalizedIsFixed(ln: string)
    requires RefOfLine(ln).Some?
    ensures RefOfLine(RefOfLine(ln).value) == RefOfLine(ln)
  {
    var u := Strip(ln);
    var v := RefOfLine(ln).value;
    if HasHttpPrefix(u) {
      assert v == u;
      StripUnchanged(u);
    } else {
      assert v == "https://" + u;
      assert v[0] == 'h' && v[|v| - 1] == u[|u| - 1];
      StripUnchanged(v);
    }
  }

  /** A bare host such as "example.com" is kept as "https://example.com". */
  lemma BareHostGetsScheme(host: string)
    requires host != [] && !IsSpace(host[0]) && !IsSpace(host[|host| - 1])
    requires IsPlainHost(host) && !HasHttpPrefix(host)
    ensures RefOfLine(host) == Some("https://" + host)
  {
    StripUnchanged(host);
    var scheme := "https";
    assert scheme + "://" + host + "" == "https://" + host;
    NetLocOfComposed(scheme, host, "");
  }

  /** `build_citation_map(urls)`: citation number `i` stands for the `i`-th URL. */
  function CitationMap(urls: seq<string>): (m: map<int, string>)
    ensures forall i :: i in m <==> 1 <= i <= |urls|
    decreases |urls|
  {
    if urls == [] then map[] else CitationMap(urls[..|urls| - 1])[|urls| := urls[|urls| - 1]]
  }

  /** The URLs of citations 1 to `n`, in citation order. */
  function CitedUrls(m: map<int, string>, n: nat): (r: seq<string>)
    requires forall i :: 1 <= i <= n ==> i in m
    ensures |r| == n
  {
    seq(n, k requires 0 <= k < n => m[k + 1])
  }

  /** Reading the citation map in number order gives back the URL list. */
  lemma CitationMapRoundTrip(urls: seq<string>)
    ensures CitedUrls(CitationMap(urls), |urls|) == urls
  {
    var m := CitationMap(urls);
    CitationMapValues(urls);
    var r := CitedUrls(m, |urls|);
    forall k | 0 <= k < |urls| ensures r[k] == urls[k] {
      assert m[k + 1] == urls[k];
    }
  }

  lemma {:induction false} CitationMapValues(urls: seq<string>)
    ensures forall i :: 1 <= i <= |urls| ==> CitationMap(urls)[i] == urls[i - 1]
    decreases |urls|
  {
    if urls != [] {
      var init := urls[..|urls| - 1];
      CitationMapValues(init);
      assert forall k :: 0 <= k < |init| ==> init[k] == urls[k];
    }
  }

  /**
   * `build_references_md(urls)`: the numbered lines joined by newlines, or
   * "—" when there is no URL. `entry(i, u)` stands for the `i`-th line, whose
   * page title is fetched over the network.
   */
  function ReferencesMd(urls: seq<string>, entry: (nat, string) -> string): (r: string)
    requires forall i: nat, u: string :: entry(i, u) != "—"
    ensures r == "—" <==> urls == []
  {
    if urls == [] then "—"
    else
      var lines := seq(|urls|, k requires 0 <= k < |urls| => entry(k + 1, urls[k]));
      JoinNotDash(lines);
      Join("\n", lines)
  }

  lemma JoinNotDash(lines: seq<string>)
    requires lines != [] && forall k :: 0 <= k < |lines| ==> lines[k] != "—"
    ensures Join("\n", lines) != "—"
  {
    if |lines| > 1 {
      var j := Join("\n", lines);
      assert j == lines[0] + "\n" + Join("\n", lines[1..]);
      assert j[|lines[0]|] == '\n';
    }
  }
}
