/**
 * The helpers of the Streamlit application: the source-URL block parser,
 * the JSON-or-text splitter, the prompt builder and the in-memory LLM
 * answer cache with its time-to-live.
 */
module App {
  import opened Text
  import opened Collections

  // ----- parse_urls_block -----

  const HTTP := "http://"
  const HTTPS := "https://"

  predicate IsUrlLine(s: string) {
    StartsWith(s, HTTP) || StartsWith(s, HTTPS)
  }

  /** `[f(x) for x in xs if keep(f(x))]`. */
  function FilterMap(xs: seq<string>, f: string -> string, keep: string -> bool): (r: seq<string>)
    ensures |r| <= |xs|
    ensures forall k :: 0 <= k < |r| ==> keep(r[k])
    decreases |xs|
  {
    if xs == [] then []
    else
      var n := |xs| - 1;
      FilterMap(xs[..n], f, keep) + (if keep(f(xs[n])) then [f(xs[n])] else [])
  }

  lemma {:induction false} FilterMapMembers(xs: seq<string>, f: string -> string, keep: string -> bool, u: string)
    ensures u in FilterMap(xs, f, keep) <==> keep(u) && exists i :: 0 <= i < |xs| && f(xs[i]) == u
    decreases |xs|
  {
    if xs != [] {
      var n := |xs| - 1;
      var pre := xs[..n];
      FilterMapMembers(pre, f, keep, u);
      var last := if keep(f(xs[n])) then [f(xs[n])] else [];
      assert FilterMap(xs, f, keep) == FilterMap(pre, f, keep) + last;
      if u in FilterMap(pre, f, keep) {
        var i :| 0 <= i < n && f(pre[i]) == u;
        assert xs[i] == pre[i];
      } else if u in last {
        assert f(xs[n]) == u;
      } else if keep(u) {
        forall i | 0 <= i < |xs| ensures f(xs[i]) != u {
          if i < n {
            assert xs[i] == pre[i];
          }
        }
      }
    }
  }

  lemma {:induction false} FilterMapAppend(a: seq<string>, b: seq<string>, f: string -> string, keep: string -> bool)
    ensures FilterMap(a + b, f, keep) == FilterMap(a, f, keep) + FilterMap(b, f, keep)
    decreases |b|
  {
    if b == [] {
      assert a + b == a;
    } else {
      var n := |b| - 1;
      assert (a + b)[..|a| + n] == a + b[..n];
      FilterMapAppend(a, b[..n], f, keep);
    }
  }

  /**
   * The stripped lines that start with an HTTP(S) scheme, in order; other
   * lines are dropped. A blank line never starts with a scheme, so the
   * skip of blank lines needs no case of its own.
   */
  function UrlLines(lines: seq<string>): (r: seq<string>)
    ensures |r| <= |lines|
    ensures forall k :: 0 <= k < |r| ==> IsUrlLine(r[k])
  {
    FilterMap(lines, Strip, IsUrlLine)
  }

  /** A URL is kept exactly when it is the stripped form of some line, and what is kept is stripped. */
  lemma UrlLinesMembers(lines: seq<string>, u: string)
    ensures u in UrlLines(lines) <==> IsUrlLine(u) && exists i :: 0 <= i < |lines| && Strip(lines[i]) == u
    ensures u in UrlLines(lines) ==> Strip(u) == u
  {
    FilterMapMembers(lines, Strip, IsUrlLine, u);
    if u in UrlLines(lines) {
      var i :| 0 <= i < |lines| && Strip(lines[i]) == u;
      assert |u| >= |HTTP|;
      StripUnchanged(u);
    }
  }

  /** `parse_urls_block(block)`: the loop over `block.splitlines()`. */
  method ParseUrlsBlock(block: string) returns (urls: seq<string>)
    ensures urls == UrlLines(SplitLines(block))
  {
    var lines := SplitLines(block);
    urls := [];
    for i := 0 to |lines|
      invariant urls == UrlLines(lines[..i])
    {
      assert lines[..i + 1][..i] == lines[..i];
      var s := Strip(lines[i]);
      if s == [] {
        continue;
      }
      if IsUrlLine(s) {
        urls := urls + [s];
      }
    }
    assert lines[..|lines|] == lines;
  }

  /** Index of the first line break is `j` when the characters before it are no line breaks and `s[j]` is one. */
  lemma {:induction false} LineBreakFromIs(s: string, i: nat, j: nat)
    requires i <= j < |s| && IsLineBreak(s[j])
    requires forall k :: i <= k < j ==> !IsLineBreak(s[k])
    ensures LineBreakFrom(s, i) == j
    decreases j - i
  {
    if i < j {
      LineBreakFromIs(s, i + 1, j);
    }
  }

  /** A newline ends the first line: the block's URLs are the first line's, then the rest's. */
  lemma UrlsOfFirstLine(a: string, b: string)
    requires forall k :: 0 <= k < |a| ==> !IsLineBreak(a[k])
    ensures UrlLines(SplitLines(a + "\n" + b)) == UrlLines([a]) + UrlLines(SplitLines(b))
  {
    var s := a + "\n" + b;
    LineBreakFromIs(s, 0, |a|);
    assert s[..|a|] == a && s[|a| + 1..] == b;
    assert SplitLines(s) == [a] + SplitLines(b);
    FilterMapAppend([a], SplitLines(b), Strip, IsUrlLine);
  }

  // ----- normalize_json_or_text -----

  /**
   * `normalize_json_or_text(s)`, with `json.loads` as the parameter
   * `parseJson` (`None` where it raises). The stripped text is parsed only
   * when it opens with '[' or '{'.
   */
  function NormalizeJsonOrText<J>(s: string, parseJson: string -> Option<J>): (r: (Option<J>, string))
    ensures r.0.Some? ==> r.1 == []
    ensures r.0.None? ==> r.1 == Strip(s)
  {
    var t := Strip(s);
    if t == [] then (None, [])
    else if StartsWith(t, "[") || StartsWith(t, "{") then
      match parseJson(t)
      case Some(v) => (Some(v), [])
      case None => (None, t)
    else (None, t)
  }

  /** Blank input gives nothing at all; text not opening with a bracket is never parsed. */
  lemma NormalizeCases<J>(s: string, parseJson: string -> Option<J>)
    ensures Strip(s) == [] ==> NormalizeJsonOrText(s, parseJson) == (None, [])
    ensures Strip(s) != [] && Strip(s)[0] != '[' && Strip(s)[0] != '{' ==> NormalizeJsonOrText(s, parseJson) == (None, Strip(s))
    ensures NormalizeJsonOrText(s, parseJson).0.Some? <==>
      Strip(s) != [] && (Strip(s)[0] == '[' || Strip(s)[0] == '{') && parseJson(Strip(s)).Some?
  {
  }

  // ----- build_prompt -----

  const SYSTEM_PROMPT := "أنت محرّر محتوى مختص في أدلة المطاعم. اكتب مقالات عربية واضحة، مُحايدة، متوافقة مع أفضل ممارسات السيو، مع عناوين فرعية ونِقاط وقوائم حيث يلزم."
  const TOPIC_LABEL := "الموضوع: "
  const AREA_LABEL := "النطاق الجغرافي: "
  const TONE_LABEL := "النبرة: "
  const LENGTH_LABEL := "الطول: "
  const NOTES_LABEL := "ملاحظات إضافية: "
  const SOURCES_LABEL := "ملخص للمصادر (عينة):\n"
  const SNIPPET_LENGTH := 1200

  /** A fetched source; a missing or null field is "". */
  datatype Source = Source(title: string, url: string, text: string)

  /** The digest of a source the prompt carries. */
  datatype Snippet = Snippet(title: string, url: string, snippet: string)

  datatype Message = Message(role: string, content: string)

  /** The digest of one source: the title stripped, the text cut to its first 1200 characters. */
  function SnippetOf(s: Source): (r: Snippet)
    ensures r.url == s.url
    ensures |r.snippet| <= SNIPPET_LENGTH && StartsWith(s.text, r.snippet)
    ensures |s.text| <= SNIPPET_LENGTH ==> r.snippet == s.text
    ensures |s.text| > SNIPPET_LENGTH ==> |r.snippet| == SNIPPET_LENGTH
    ensures r.title == Strip(s.title)
  {
    Snippet(Strip(s.title), s.url, Take(s.text, SNIPPET_LENGTH))
  }

  function SnippetsOf(sources: seq<Source>): (r: seq<Snippet>)
    ensures |r| == |sources|
    ensures forall i :: 0 <= i < |sources| ==> r[i] == SnippetOf(sources[i])
  {
    seq(|sources|, i requires 0 <= i < |sources| => SnippetOf(sources[i]))
  }

  /**
   * The `user_parts` list. `dumps` stands for `json.dumps(..., indent=2)`
   * of the digests.
   */
  function UserParts(topic: string, area: string, tone: string, length: string, notes: string,
                     sources: seq<Source>, dumps: seq<Snippet> -> string): (r: seq<string>)
    ensures 2 <= |r| <= 6
  {
    Part(topic != [], TOPIC_LABEL + topic) + OtherParts(area, tone, length, notes, sources, dumps)
  }

  /** Only the topic part starts with the topic label. */
  lemma OnlyTopicPart(topic: string, area: string, tone: string, length: string, notes: string,
                      sources: seq<Source>, dumps: seq<Snippet> -> string)
    ensures (exists i :: 0 <= i < |UserParts(topic, area, tone, length, notes, sources, dumps)|
               && StartsWith(UserParts(topic, area, tone, length, notes, sources, dumps)[i], TOPIC_LABEL))
            <==> topic != []
    ensures topic != [] ==> UserParts(topic, area, tone, length, notes, sources, dumps)[0] == TOPIC_LABEL + topic
  {
    var r := UserParts(topic, area, tone, length, notes, sources, dumps);
    var rest := OtherParts(area, tone, length, notes, sources, dumps);
    if topic != [] {
      LabelPrefix(TOPIC_LABEL, topic);
      assert r[0] == TOPIC_LABEL + topic;
    } else {
      assert r == rest;
      OtherPartsLabelled(area, tone, length, notes, sources, dumps);
      forall i | 0 <= i < |r| ensures !StartsWith(r[i], TOPIC_LABEL) {
        if StartsWith(r[i], TOPIC_LABEL) {
          TopicLabelExcludes(r[i]);
        }
      }
    }
  }

  /** The parts after the topic's; each starts with a label other than the topic's. */
  function OtherParts(area: string, tone: string, length: string, notes: string,
                      sources: seq<Source>, dumps: seq<Snippet> -> string): (r: seq<string>)
    ensures 2 <= |r| <= 5
  {
    Part(area != [], AREA_LABEL + area)
    + [TONE_LABEL + tone, LENGTH_LABEL + length]
    + Part(Strip(notes) != [], NOTES_LABEL + Strip(notes))
    + Part(sources != [], SOURCES_LABEL + dumps(SnippetsOf(sources)))
  }

  /** Each part after the topic's starts with a label other than the topic's. */
  lemma OtherPartsLabelled(area: string, tone: string, length: string, notes: string,
                           sources: seq<Source>, dumps: seq<Snippet> -> string)
    ensures var r := OtherParts(area, tone, length, notes, sources, dumps);
      forall i :: 0 <= i < |r| ==> IsOtherPart(r[i])
  {
    var r := OtherParts(area, tone, length, notes, sources, dumps);
    LabelPrefix(AREA_LABEL, area);
    LabelPrefix(TONE_LABEL, tone);
    LabelPrefix(LENGTH_LABEL, length);
    LabelPrefix(NOTES_LABEL, Strip(notes));
    LabelPrefix(SOURCES_LABEL, dumps(SnippetsOf(sources)));
    forall i | 0 <= i < |r| ensures IsOtherPart(r[i]) {
      assert r[i] in r;
    }
  }

  /** A part appended only when `present`. */
  function Part(present: bool, text: string): (r: seq<string>)
    ensures |r| == if present then 1 else 0
    ensures present ==> r[0] == text
  {
    if present then [text] else []
  }

  lemma LabelPrefix(tag: string, v: string)
    ensures StartsWith(tag + v, tag)
  {
    assert (tag + v)[..|tag|] == tag;
  }

  predicate IsOtherPart(x: string) {
    StartsWith(x, AREA_LABEL) || StartsWith(x, TONE_LABEL) || StartsWith(x, LENGTH_LABEL)
    || StartsWith(x, NOTES_LABEL) || StartsWith(x, SOURCES_LABEL)
  }

  /** The topic label parts from every other label within its first three characters. */
  lemma TopicLabelExcludes(x: string)
    requires StartsWith(x, TOPIC_LABEL)
    ensures !IsOtherPart(x)
  {
    assert x[0] == TOPIC_LABEL[0] && x[2] == TOPIC_LABEL[2];
  }

  /** The area part is there exactly when an area is given, right after the topic part if any. */
  lemma AreaPart(topic: string, area: string, tone: string, length: string, notes: string,
                 sources: seq<Source>, dumps: seq<Snippet> -> string)
    ensures var r := UserParts(topic, area, tone, length, notes, sources, dumps);
      var at := if topic != [] then 1 else 0;
      (area != [] ==> r[at] == AREA_LABEL + area && r[at + 1] == TONE_LABEL + tone)
      && (area == [] ==> r[at] == TONE_LABEL + tone)
  {
  }

  /** `build_prompt(...)`: the system message, then the user message with the parts joined by blank lines. */
  function PromptOf(topic: string, area: string, tone: string, length: string, notes: string,
                    sources: seq<Source>, dumps: seq<Snippet> -> string): (r: seq<Message>)
    ensures |r| == 2 && r[0].role == "system" && r[1].role == "user"
    ensures r[0].content == SYSTEM_PROMPT
  {
    [Message("system", SYSTEM_PROMPT),
     Message("user", Join("\n\n", UserParts(topic, area, tone, length, notes, sources, dumps)))]
  }

  /** The loop of `build_prompt` over the sources. */
  method Snippets(sources: seq<Source>) returns (short: seq<Snippet>)
    ensures short == SnippetsOf(sources)
  {
    short := [];
    for i := 0 to |sources|
      invariant short == SnippetsOf(sources[..i])
    {
      assert SnippetsOf(sources[..i + 1]) == SnippetsOf(sources[..i]) + [SnippetOf(sources[i])];
      short := short + [SnippetOf(sources[i])];
    }
    assert sources[..|sources|] == sources;
  }

  lemma AppendThree(h: seq<string>, a: seq<string>, b: seq<string>, c: seq<string>)
    ensures h + a + b + c == h + (a + b + c)
  {
  }

  /** The body of `build_prompt`: conditional appends, then the digests of the sources. */
  method BuildPrompt(topic: string, area: string, tone: string, length: string, notes: string,
                     sources: seq<Source>, dumps: seq<Snippet> -> string) returns (r: seq<Message>)
    ensures r == PromptOf(topic, area, tone, length, notes, sources, dumps)
  {
    var parts: seq<string> := [];
    if topic != [] {
      parts := parts + [TOPIC_LABEL + topic];
    }
    assert parts == Part(topic != [], TOPIC_LABEL + topic);
    ghost var head := parts;
    if area != [] {
      parts := parts + [AREA_LABEL + area];
    }
    assert parts == head + Part(area != [], AREA_LABEL + area);
    parts := parts + [TONE_LABEL + tone];
    parts := parts + [LENGTH_LABEL + length];
    ghost var fixed := Part(area != [], AREA_LABEL + area) + [TONE_LABEL + tone, LENGTH_LABEL + length];
    assert parts == head + fixed;
    if Strip(notes) != [] {
      parts := parts + [NOTES_LABEL + Strip(notes)];
    }
    assert parts == head + fixed + Part(Strip(notes) != [], NOTES_LABEL + Strip(notes));
    ghost var withNotes := parts;
    if sources != [] {
      var short := Snippets(sources);
      parts := parts + [SOURCES_LABEL + dumps(short)];
    }
    assert parts == withNotes + Part(sources != [], SOURCES_LABEL + dumps(SnippetsOf(sources)));
    ghost var notesPart := Part(Strip(notes) != [], NOTES_LABEL + Strip(notes));
    ghost var sourcesPart := Part(sources != [], SOURCES_LABEL + dumps(SnippetsOf(sources)));
    assert OtherParts(area, tone, length, notes, sources, dumps) == fixed + notesPart + sourcesPart;
    AppendThree(head, fixed, notesPart, sourcesPart);
    assert parts == UserParts(topic, area, tone, length, notes, sources, dumps);
    r := [Message("system", SYSTEM_PROMPT), Message("user", Join("\n\n", parts))];
  }

  // ----- LLMCacher -----

  /** An entry of the cache: when it was stored, and the answer. */
  datatype Entry<V> = Entry(stored: real, value: V)

  /** What `get(key)` returns at time `now`. */
  function Lookup<V>(mem: map<string, Entry<V>>, ttl: int, key: string, now: real): (r: Option<V>)
    ensures r.Some? <==> key in mem && now - mem[key].stored <= ttl as real
    ensures r.Some? ==> r.value == mem[key].value
  {
    if key !in mem then None
    else if now - mem[key].stored > ttl as real then None
    else Some(mem[key].value)
  }

  /** The cache after `get(key)` at time `now`: an expired entry is gone, nothing else changes. */
  function AfterGet<V>(mem: map<string, Entry<V>>, ttl: int, key: string, now: real): (m: map<string, Entry<V>>)
    ensures forall k :: k != key ==> (k in m <==> k in mem) && (k in m ==> m[k] == mem[k])
    ensures key in m <==> key in mem && now - mem[key].stored <= ttl as real
    ensures key in m ==> m[key] == mem[key]
  {
    if key in mem && now - mem[key].stored > ttl as real then mem - {key} else mem
  }

  /** An answer stored at `t` is served back at any time up to `t + ttl`. */
  lemma SetThenGet<V>(mem: map<string, Entry<V>>, ttl: int, key: string, v: V, t: real, now: real)
    requires now <= t + ttl as real
    ensures Lookup(mem[key := Entry(t, v)], ttl, key, now) == Some(v)
    ensures AfterGet(mem[key := Entry(t, v)], ttl, key, now) == mem[key := Entry(t, v)]
  {
  }

  /** Past `t + ttl` the answer is no longer served, and the lookup evicts it. */
  lemma SetThenExpire<V>(mem: map<string, Entry<V>>, ttl: int, key: string, v: V, t: real, now: real)
    requires now > t + ttl as real
    ensures Lookup(mem[key := Entry(t, v)], ttl, key, now) == None
    ensures AfterGet(mem[key := Entry(t, v)], ttl, key, now) == mem - {key}
  {
    var m := mem[key := Entry(t, v)];
    assert m - {key} == mem - {key};
  }

  /** An answer served at some time is served, the same, at every earlier time. */
  lemma LookupMonotone<V>(mem: map<string, Entry<V>>, ttl: int, key: string, early: real, late: real)
    requires early <= late
    ensures Lookup(mem, ttl, key, late).Some? ==> Lookup(mem, ttl, key, early) == Lookup(mem, ttl, key, late)
  {
  }

  /** `LLMCacher`: a time-to-live in seconds and the in-memory map; the clock is the `now` argument. */
  class Cacher<V> {
    const ttl: int
    var mem: map<string, Entry<V>>

    /** `LLMCacher(ttl_hours)`. */
    constructor (ttlHours: int)
      ensures ttl == ttlHours * 3600 && mem == map[]
    {
      ttl := ttlHours * 3600;
      mem := map[];
    }

    /** `get(key)`: the stored answer while fresh; a stale one is dropped and nothing is returned. */
    method Get(key: string, now: real) returns (r: Option<V>)
      modifies this
      ensures r == Lookup(old(mem), ttl, key, now)
      ensures mem == AfterGet(old(mem), ttl, key, now)
    {
      if key !in mem {
        return None;
      }
      var row := mem[key];
      if now - row.stored > ttl as real {
        mem := mem - {key};
        return None;
      }
      return Some(row.value);
    }

    /** `set(key, value)`: the entry is replaced with one stamped `now`; other keys keep theirs. */
    method Set(key: string, value: V, now: real)
      modifies this
      ensures mem == old(mem)[key := Entry(now, value)]
    {
      mem := mem[key := Entry(now, value)];
    }
  }
}
