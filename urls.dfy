/**
 * The part of `urllib.parse.urlparse` the application relies on: the network
 * location (`netloc`) of a URL, which decides whether a reference is kept and
 * which domain keys a place.
 */
module Urls {
  import opened Text
  import opened Collections

  /** The characters `urlsplit` strips from the front: C0 controls and space. */
  predicate IsC0OrSpace(c: char) { c <= ' ' }

  /** The characters `urlsplit` deletes wherever they occur. */
  predicate IsUnsafe(c: char) { c == '\t' || c == '\r' || c == '\n' }

  /** The characters a scheme may consist of. */
  predicate IsSchemeChar(c: char) { IsAsciiLetter(c) || IsAsciiDigit(c) || c == '+' || c == '-' || c == '.' }

  /** The characters that end the network location. */
  predicate IsNetLocEnd(c: char) { c == '/' || c == '?' || c == '#' }

  /** The URL with tab, carriage return and newline removed. */
  function Scrub(u: string): (r: string)
    ensures forall k :: 0 <= k < |r| ==> !IsUnsafe(r[k])
    ensures (forall k :: 0 <= k < |u| ==> !IsUnsafe(u[k])) ==> r == u
    decreases |u|
  {
    if u == [] then []
    else
      var init := Scrub(u[..|u| - 1]);
      assert u == u[..|u| - 1] + [u[|u| - 1]];
      if IsUnsafe(u[|u| - 1]) then init else init + [u[|u| - 1]]
  }

  /** Whether the text before the first ':' is a scheme: non-empty, starting with a letter, of scheme characters only. */
  predicate HasScheme(u: string) {
    var i := FindFrom(u, ':', 0);
    0 < i < |u| && IsAsciiLetter(u[0]) && forall k :: 0 <= k < i ==> IsSchemeChar(u[k])
  }

  /** What follows the scheme and its ':', or the whole URL when it has no scheme. */
  function AfterScheme(u: string): (r: string)
    ensures |r| <= |u| && r == u[|u| - |r|..]
  {
    if HasScheme(u) then u[FindFrom(u, ':', 0) + 1..] else u
  }

  /** The end of the network location that starts at position `i`. */
  function NetLocEndFrom(s: string, i: nat): (j: nat)
    requires i <= |s|
    ensures i <= j <= |s|
    ensures forall k :: i <= k < j ==> !IsNetLocEnd(s[k])
    ensures j < |s| ==> IsNetLocEnd(s[j])
    decreases |s| - i
  {
    if i == |s| || IsNetLocEnd(s[i]) then i else NetLocEndFrom(s, i + 1)
  }

  /**
   * `urlparse(u).netloc`: the text between a leading "//" (after the scheme)
   * and the next '/', '?' or '#', and "" when there is no "//". None stands for
   * the ValueError raised when the location has one square bracket without its
   * partner.
   */
  function NetLoc(u: string): (r: Option<string>)
    ensures r.Some? ==> forall k :: 0 <= k < |r.value| ==> !IsNetLocEnd(r.value[k]) && !IsUnsafe(r.value[k])
  {
    var s := Scrub(TrimLeft(u, IsC0OrSpace));
    var rest := AfterScheme(s);
    if |rest| >= 2 && rest[0] == '/' && rest[1] == '/' then
      var e := NetLocEndFrom(rest, 2);
      var n := rest[2..e];
      if ('[' in n) != (']' in n) then None else Some(n)
    else
      Some("")
  }

  /** `_domain(u)`: the network location in lower case, and "" where `urlparse` raises. */
  function Domain(u: string): (d: string)
    ensures NetLoc(u).Some? ==> d == Lower(NetLoc(u).value)
    ensures NetLoc(u).None? ==> d == []
  {
    match NetLoc(u)
    case Some(n) => Lower(n)
    case None => ""
  }

  /** A host: no delimiter, no deleted character and no square bracket. */
  predicate IsPlainHost(h: string) {
    forall k :: 0 <= k < |h| ==> !IsNetLocEnd(h[k]) && !IsUnsafe(h[k]) && h[k] != '[' && h[k] != ']'
  }

  /** A path, query or fragment that cannot extend the host. */
  predicate IsTail(t: string) {
    (t == [] || IsNetLocEnd(t[0])) && forall k :: 0 <= k < |t| ==> !IsUnsafe(t[k])
  }

  /**
   * Composing a URL from a scheme, "://", a host and a path and parsing it
   * gives the host back.
   */
  lemma NetLocOfComposed(scheme: string, host: string, tail: string)
    requires scheme != [] && IsAsciiLetter(scheme[0])
    requires forall k :: 0 <= k < |scheme| ==> IsSchemeChar(scheme[k])
    requires IsPlainHost(host) && IsTail(tail)
    ensures NetLoc(scheme + "://" + host + tail) == Some(host)
  {
    var rest := "//" + host + tail;
    var u := scheme + "://" + host + tail;
    ComposedIsClean(scheme, host, tail);
    assert u == scheme + ":" + rest;
    SchemeOfComposed(scheme, rest);
    NetLocAfterSlashes(u, host, tail);
  }

  lemma NetLocAfterSlashes(u: string, host: string, tail: string)
    requires Scrub(TrimLeft(u, IsC0OrSpace)) == u
    requires AfterScheme(u) == "//" + host + tail
    requires IsPlainHost(host) && IsTail(tail)
    ensures NetLoc(u) == Some(host)
  {
    var rest := "//" + host + tail;
    assert rest[0] == '/' && rest[1] == '/';
    HostAfterSlashes(host, tail);
    assert '[' !in host && ']' !in host;
  }

  lemma ComposedIsClean(scheme: string, host: string, tail: string)
    requires scheme != [] && IsAsciiLetter(scheme[0])
    requires forall k :: 0 <= k < |scheme| ==> IsSchemeChar(scheme[k])
    requires IsPlainHost(host) && IsTail(tail)
    ensures Scrub(TrimLeft(scheme + "://" + host + tail, IsC0OrSpace)) == scheme + "://" + host + tail
  {
    var u := scheme + "://" + host + tail;
    var i := |scheme|;
    forall k | 0 <= k < |u| ensures !IsUnsafe(u[k]) {
      if k < i { assert u[k] == scheme[k]; }
      else if k >= i + 3 + |host| { assert u[k] == tail[k - i - 3 - |host|]; }
      else if k >= i + 3 { assert u[k] == host[k - i - 3]; }
    }
    assert u[0] == scheme[0];
    assert Span(u, IsC0OrSpace) == 0;
    assert u[0..] == u;
  }

  lemma SchemeOfComposed(scheme: string, rest: string)
    requires scheme != [] && IsAsciiLetter(scheme[0])
    requires forall k :: 0 <= k < |scheme| ==> IsSchemeChar(scheme[k])
    ensures AfterScheme(scheme + ":" + rest) == rest
  {
    var u := scheme + ":" + rest;
    assert forall k :: 0 <= k < |scheme| ==> u[k] == scheme[k];
    assert u[|scheme|] == ':';
    assert FindFrom(u, ':', 0) == |scheme|;
    assert u[|scheme| + 1..] == rest;
  }

  lemma HostAfterSlashes(host: string, tail: string)
    requires IsPlainHost(host) && IsTail(tail)
    ensures NetLocEndFrom("//" + host + tail, 2) == 2 + |host|
    ensures ("//" + host + tail)[2..2 + |host|] == host
  {
    var rest := "//" + host + tail;
    forall k | 2 <= k < 2 + |host| ensures !IsNetLocEnd(rest[k]) {
      assert rest[k] == host[k - 2];
    }
    if tail != [] {
      assert rest[2 + |host|] == tail[0];
    }
  }

  /** Without "//" after the scheme there is no network location. */
  lemma NoNetLocWithoutSlashes(u: string)
    requires forall k :: 0 <= k < |u| ==> u[k] != '/'
    ensures NetLoc(u) == Some("")
  {
    var s := Scrub(TrimLeft(u, IsC0OrSpace));
    var t := TrimLeft(u, IsC0OrSpace);
    assert forall k :: 0 <= k < |t| ==> t[k] == u[|u| - |t| + k];
    ScrubKeeps(t, '/');
    var rest := AfterScheme(s);
    assert forall k :: 0 <= k < |rest| ==> rest[k] == s[|s| - |rest| + k];
  }

  /** Deleting characters never introduces one that was absent. */
  lemma {:induction false} ScrubKeeps(u: string, c: char)
    requires forall k :: 0 <= k < |u| ==> u[k] != c
    ensures forall k :: 0 <= k < |Scrub(u)| ==> Scrub(u)[k] != c
    decreases |u|
  {
    if u != [] {
      ScrubKeeps(u[..|u| - 1], c);
    }
  }
}
