/**
 * The WordPress REST client: the post slugifier and the normalisation of
 * the REST base URL the client keeps.
 */
module WpClient {
  import opened Text

  // ----- _slugify -----

  /** `re.sub(P, "", s)` for a character class: the characters satisfying `keep`, in order. */
  function KeepWhere(s: string, keep: char -> bool): (r: string)
    ensures |r| <= |s|
    ensures forall i :: 0 <= i < |r| ==> keep(r[i])
    decreases |s|
  {
    if s == [] then []
    else KeepWhere(s[..|s| - 1], keep) + (if keep(s[|s| - 1]) then [s[|s| - 1]] else [])
  }

  /** Nothing is removed from a string whose every character is kept. */
  lemma {:induction false} KeepWhereAll(s: string, keep: char -> bool)
    requires forall i :: 0 <= i < |s| ==> keep(s[i])
    ensures KeepWhere(s, keep) == s
    decreases |s|
  {
    if s != [] {
      KeepWhereAll(s[..|s| - 1], keep);
    }
  }

  /** The filter drops a rejected character wherever it stands. */
  lemma {:induction false} KeepWhereDrops(a: string, c: char, b: string, keep: char -> bool)
    requires !keep(c)
    ensures KeepWhere(a + [c] + b, keep) == KeepWhere(a + b, keep)
    decreases |b|
  {
    if b == [] {
      assert (a + [c] + b)[..|a|] == a && a + b == a;
    } else {
      var n := |b| - 1;
      assert (a + [c] + b)[..|a| + 1 + n] == a + [c] + b[..n];
      assert (a + b)[..|a| + n] == a + b[..n];
      KeepWhereDrops(a, c, b[..n], keep);
    }
  }

  /** Every character the filter keeps is one of the input's. */
  lemma {:induction false} KeepWhereKeeps(s: string, keep: char -> bool, q: char -> bool)
    requires forall i :: 0 <= i < |s| ==> q(s[i])
    ensures forall i :: 0 <= i < |KeepWhere(s, keep)| ==> q(KeepWhere(s, keep)[i])
    decreases |s|
  {
    if s != [] {
      KeepWhereKeeps(s[..|s| - 1], keep, q);
    }
  }

  /** The character class of the filter, then runs of '-' shrunk to one. */
  function SingleDashes(u: string): (w: string)
    ensures forall i :: 0 <= i < |w| ==> IsSlugOrDash(w[i])
    ensures forall i :: 0 <= i < |w| - 1 ==> !(w[i] == '-' && w[i + 1] == '-')
  {
    var k := KeepWhere(u, IsSlugOrDash);
    ReplaceRunsKeeps(k, IsDash, '-', IsSlugOrDash);
    ReplaceRunsNoDoubles(k, IsDash, '-');
    ReplaceRuns(k, IsDash, '-')
  }

  /**
   * `_slugify(s)`. `decompose` stands for NFKD normalisation followed by
   * dropping combining marks. The ends are stripped and ASCII letters
   * lowered, every whitespace run becomes '-', every character outside
   * a-z, 0-9, the Arabic block and '-' is deleted, runs of '-' shrink to one,
   * dashes at the ends go, and "post" replaces an empty result.
   */
  function Slugify(s: string, decompose: string -> string): (r: string)
    ensures IsSlug(r)
  {
    var w := SingleDashes(ReplaceRuns(Lower(Strip(decompose(s))), IsSpace, '-'));
    TrimDashesSlug(w);
    var v := TrimDashes(w);
    if v == [] then PostIsSlug(); "post" else v
  }

  lemma PostIsSlug()
    ensures IsSlug("post")
  {
    var p := "post";
    assert IsSlugChar(p[0]) && IsSlugChar(p[1]) && IsSlugChar(p[2]) && IsSlugChar(p[3]);
  }

  /** A slug whose decomposition is itself comes back unchanged. */
  lemma SlugifyOfSlug(v: string, decompose: string -> string)
    requires IsSlug(v) && decompose(v) == v
    ensures Slugify(v, decompose) == v
  {
    SlugHasNoSpace(v, '-');
    StripUnchanged(v);
    SlugIsLower(v);
    KeepWhereAll(v, IsSlugOrDash);
    ReplaceRunsUnchanged(v, IsDash, '-');
    assert SingleDashes(v) == v;
    assert Span(v, IsDash) == 0;
    assert TrimLeft(v, IsDash) == v;
  }

  /** A title with no letter or digit a slug can keep, even after lowering, slugifies to "post". */
  lemma NothingToKeepGivesPost(s: string, decompose: string -> string)
    requires forall i :: 0 <= i < |decompose(s)| ==> !IsSlugChar(LowerChar(decompose(s)[i]))
    ensures Slugify(s, decompose) == "post"
  {
    var d := decompose(s);
    var st := Strip(d);
    StripIsSlice(d);
    var t := Lower(st);
    assert forall i :: 0 <= i < |t| ==> IsNotSlugChar(t[i]);
    var u := ReplaceRuns(t, IsSpace, '-');
    ReplaceRunsKeeps(t, IsSpace, '-', IsNotSlugChar);
    var k := KeepWhere(u, IsSlugOrDash);
    KeepWhereKeeps(u, IsSlugOrDash, IsNotSlugChar);
    assert forall i :: 0 <= i < |k| ==> IsDash(k[i]);
    var w := ReplaceRuns(k, IsDash, '-');
    ReplaceRunsKeeps(k, IsDash, '-', IsDash);
    assert SingleDashes(u) == w;
    SpanIs(w, IsDash, |w|);
    assert TrimLeft(w, IsDash) == [];
  }

  /**
   * Unlike the places slug, which turns it into '-', a character outside
   * the class between two words is simply deleted.
   */
  lemma SlugifyDeletesForeign(s1: string, s2: string, decompose: string -> string, a: string, c: char, b: string)
    requires !IsSpace(c) && !IsSlugOrDash(LowerChar(c))
    requires a != [] && !IsSpace(a[0]) && !IsSpace(a[|a| - 1])
    requires b != [] && !IsSpace(b[0]) && !IsSpace(b[|b| - 1])
    requires decompose(s1) == a + [c] + b && decompose(s2) == a + b
    ensures Slugify(s1, decompose) == Slugify(s2, decompose)
  {
    var la, lc, lb := LoweredAround(a, c, b);
    ReplaceRunsAround(la, lc, lb);
    KeepWhereDrops(ReplaceRuns(la, IsSpace, '-'), lc, ReplaceRuns(lb, IsSpace, '-'), IsSlugOrDash);
  }

  /** Stripping and lowering `a + [c] + b` and `a + b` when both words have no whitespace at their ends. */
  lemma LoweredAround(a: string, c: char, b: string) returns (la: string, lc: char, lb: string)
    requires !IsSpace(c)
    requires a != [] && !IsSpace(a[0]) && !IsSpace(a[|a| - 1])
    requires b != [] && !IsSpace(b[0]) && !IsSpace(b[|b| - 1])
    ensures la == Lower(a) && lb == Lower(b) && lc == LowerChar(c)
    ensures Lower(Strip(a + [c] + b)) == la + [lc] + lb && Lower(Strip(a + b)) == la + lb
    ensures la != [] && !IsSpace(la[|la| - 1])
  {
    var s := a + [c] + b;
    assert s[0] == a[0] && s[|s| - 1] == b[|b| - 1];
    StripUnchanged(s);
    assert (a + b)[0] == a[0] && (a + b)[|a + b| - 1] == b[|b| - 1];
    StripUnchanged(a + b);
    la, lb, lc := Lower(a), Lower(b), LowerChar(c);
    assert Lower(s) == la + [lc] + lb;
    assert Lower(a + b) == la + lb;
    assert la[|la| - 1] == LowerChar(a[|a| - 1]);
  }

  lemma ReplaceRunsAround(la: string, lc: char, lb: string)
    requires !IsSpace(lc)
    requires la != [] && !IsSpace(la[|la| - 1])
    ensures ReplaceRuns(la + [lc] + lb, IsSpace, '-') == ReplaceRuns(la, IsSpace, '-') + [lc] + ReplaceRuns(lb, IsSpace, '-')
    ensures ReplaceRuns(la + lb, IsSpace, '-') == ReplaceRuns(la, IsSpace, '-') + ReplaceRuns(lb, IsSpace, '-')
  {
    ReplaceRunsAppend(la, [lc] + lb, IsSpace, '-');
    assert ([lc] + lb)[1..] == lb;
    ReplaceRunsAppend(la, lb, IsSpace, '-');
    assert la + [lc] + lb == la + ([lc] + lb);
  }

  // ----- the REST base URL -----

  const API_ROOT := "/wp-json/wp/v2"
  const JSON_ROOT := "/wp-json"

  predicate IsSlash(c: char) { c == '/' }

  /**
   * The base URL as `WPClient.__init__` settles it: trailing '/' stripped,
   * then "/wp/v2" added after a bare "/wp-json", or the whole API root after
   * anything else that does not already end in it.
   */
  function NormalizeBase(baseUrl: string): (r: string)
    ensures EndsWith(r, API_ROOT)
  {
    var b := TrimRight(baseUrl, IsSlash);
    if EndsWith(b, API_ROOT) then b
    else if EndsWith(b, JSON_ROOT) then b + "/wp/v2"
    else b + API_ROOT
  }

  /** Normalising a normalised base changes nothing. */
  lemma NormalizeBaseIdempotent(baseUrl: string)
    ensures NormalizeBase(NormalizeBase(baseUrl)) == NormalizeBase(baseUrl)
  {
    var r := NormalizeBase(baseUrl);
    assert r[|r| - 1] == '2';
    assert TrimRight(r, IsSlash) == r;
  }

  /** The three cases: an API root is kept, a bare JSON root is completed, anything else gets the whole root. */
  lemma NormalizeBaseCases(host: string)
    requires host == [] || host[|host| - 1] != '/'
    ensures NormalizeBase(host + API_ROOT + "/") == host + API_ROOT
    ensures NormalizeBase(host + JSON_ROOT) == host + API_ROOT
    ensures !EndsWith(host, JSON_ROOT) && !EndsWith(host, API_ROOT) ==> NormalizeBase(host) == host + API_ROOT
  {
    ApiRootKept(host);
    JsonRootCompleted(host);
    if !EndsWith(host, JSON_ROOT) && !EndsWith(host, API_ROOT) {
      assert TrimRight(host, IsSlash) == host;
    }
  }

  lemma ApiRootKept(host: string)
    ensures NormalizeBase(host + API_ROOT + "/") == host + API_ROOT
  {
    var a := host + API_ROOT;
    assert TrimRight(a + "/", IsSlash) == TrimRight(a, IsSlash);
    assert a[|a| - 1] == '2';
    assert TrimRight(a, IsSlash) == a;
    assert EndsWith(a, API_ROOT) by { assert a[|a| - |API_ROOT|..] == API_ROOT; }
  }

  lemma JsonRootCompleted(host: string)
    ensures NormalizeBase(host + JSON_ROOT) == host + API_ROOT
  {
    var j := host + JSON_ROOT;
    assert j[|j| - 1] == 'n';
    assert TrimRight(j, IsSlash) == j;
    assert !EndsWith(j, API_ROOT) by {
      if |j| >= |API_ROOT| { assert j[|j| - 1] != API_ROOT[|API_ROOT| - 1]; }
    }
    assert EndsWith(j, JSON_ROOT) by { assert j[|j| - |JSON_ROOT|..] == JSON_ROOT; }
    assert j + "/wp/v2" == host + API_ROOT;
  }

  /** The client's state this model keeps: its REST base URL. */
  class Client {
    var base: string

    /** `WPClient.__init__` with the session and credentials left out. */
    constructor (baseUrl: string)
      ensures base == NormalizeBase(baseUrl)
      ensures EndsWith(base, API_ROOT)
    {
      base := TrimRight(baseUrl, IsSlash);
      new;
      if !EndsWith(base, API_ROOT) {
        if EndsWith(base, JSON_ROOT) {
          base := base + "/wp/v2";
        } else {
          base := base + API_ROOT;
        }
      }
    }
  }
}
