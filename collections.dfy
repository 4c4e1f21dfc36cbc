/**
 * The collection idioms the application leans on: `set(s)`, order-preserving
 * de-duplication with a `seen` set, `collections.Counter` (insertion-ordered),
 * `Counter.most_common(n)` and the stable `sorted(key=...)`.
 */
module Collections {

  /** A value that may be absent, as Python's `None`. */
  datatype Option<T> = None | Some(value: T)

  predicate Distinct<T(==,!new)>(s: seq<T>) {
    forall i, j :: 0 <= i < j < |s| ==> s[i] != s[j]
  }

  /** `set(s)`: the elements of a sequence; never more of them than the sequence is long. */
  function Elements<T(==,!new)>(s: seq<T>): (r: set<T>)
    ensures forall x :: x in r <==> x in s
    ensures |r| <= |s|
    ensures s != [] ==> |r| >= 1
    decreases |s|
  {
    if s == [] then {} else Elements(s[..|s| - 1]) + {s[|s| - 1]}
  }

  /** A sequence has as many distinct elements as entries exactly when no entry repeats. */
  lemma {:induction false} ElementsCountDistinct<T(!new)>(s: seq<T>)
    ensures |Elements(s)| == |s| <==> Distinct(s)
    decreases |s|
  {
    if s != [] {
      var p, x := s[..|s| - 1], s[|s| - 1];
      assert s == p + [x];
      ElementsCountDistinct(p);
      DistinctSnoc(p, x);
      if x in p {
        assert Elements(s) == Elements(p);
      } else {
        assert |Elements(s)| == |Elements(p)| + 1;
      }
    }
  }

  /** Appending `x` keeps a sequence repeat-free exactly when `x` is new. */
  lemma DistinctSnoc<T(!new)>(p: seq<T>, x: T)
    ensures Distinct(p + [x]) <==> Distinct(p) && x !in p
  {
    var s := p + [x];
    assert forall i :: 0 <= i < |p| ==> s[i] == p[i];
    if x in p {
      var i :| 0 <= i < |p| && p[i] == x;
      assert s[i] == s[|p|];
    }
  }

  /** `[f(x) for x in xs]`. */
  function Mapped<A, B>(xs: seq<A>, f: A -> B): (r: seq<B>)
    ensures |r| == |xs|
    ensures forall i :: 0 <= i < |xs| ==> r[i] == f(xs[i])
  {
    seq(|xs|, i requires 0 <= i < |xs| => f(xs[i]))
  }

  /** One more element of the input gives one more element of the image. */
  lemma MappedStep<A, B>(xs: seq<A>, f: A -> B, i: nat)
    requires i < |xs|
    ensures Mapped(xs[..i + 1], f) == Mapped(xs[..i], f) + [f(xs[i])]
  {
  }

  /** `f`'s sequences for the elements of `xs`, one after another. */
  function ConcatMap<A, B>(xs: seq<A>, f: A -> seq<B>): seq<B>
    decreases |xs|
  {
    if xs == [] then [] else ConcatMap(xs[..|xs| - 1], f) + f(xs[|xs| - 1])
  }

  lemma {:induction false} ConcatMapAppend<A, B>(a: seq<A>, b: seq<A>, f: A -> seq<B>)
    ensures ConcatMap(a + b, f) == ConcatMap(a, f) + ConcatMap(b, f)
    decreases |b|
  {
    if b == [] {
      assert a + b == a;
    } else {
      var n := |b| - 1;
      assert (a + b)[..|a + b| - 1] == a + b[..n];
      assert (a + b)[|a + b| - 1] == b[n];
      ConcatMapAppend(a, b[..n], f);
      var x, y, z := ConcatMap(a, f), ConcatMap(b[..n], f), f(b[n]);
      assert (x + y) + z == x + (y + z);
    }
  }

  lemma {:induction false} ConcatMapSplit<A, B>(xs: seq<A>, j: nat, f: A -> seq<B>)
    requires j <= |xs|
    ensures ConcatMap(xs, f) == ConcatMap(xs[..j], f) + ConcatMap(xs[j..], f)
    decreases |xs|
  {
    if j == |xs| {
      assert xs[..j] == xs && xs[j..] == [];
    } else {
      var n := |xs| - 1;
      var t := xs[j..];
      ConcatMapSplit(xs[..n], j, f);
      assert xs[..n][..j] == xs[..j];
      assert t[..|t| - 1] == xs[..n][j..] && t[|t| - 1] == xs[n];
      var x, y, z := ConcatMap(xs[..j], f), ConcatMap(xs[..n][j..], f), f(xs[n]);
      assert (x + y) + z == x + (y + z);
    }
  }

  /** The values of the `Some` results of `f` over `xs`, in order. */
  function Present<A, B>(xs: seq<A>, f: A -> Option<B>): (r: seq<B>)
    ensures |r| <= |xs|
    decreases |xs|
  {
    if xs == [] then []
    else
      var last := f(xs[|xs| - 1]);
      Present(xs[..|xs| - 1], f) + (if last.Some? then [last.value] else [])
  }

  /** When `f` maps each of its results on `xs` to itself, it maps every present value to itself. */
  lemma {:induction false} PresentFixed<A>(xs: seq<A>, f: A -> Option<A>)
    requires forall i :: 0 <= i < |xs| && f(xs[i]).Some? ==> f(f(xs[i]).value) == f(xs[i])
    ensures forall k :: 0 <= k < |Present(xs, f)| ==> f(Present(xs, f)[k]) == Some(Present(xs, f)[k])
    decreases |xs|
  {
    if xs != [] {
      var n := |xs| - 1;
      var pre := Present(xs[..n], f);
      assert forall i :: 0 <= i < n ==> xs[..n][i] == xs[i];
      PresentFixed(xs[..n], f);
      forall k | 0 <= k < |Present(xs, f)| ensures f(Present(xs, f)[k]) == Some(Present(xs, f)[k]) {
        if k < |pre| {
          assert Present(xs, f)[k] == pre[k];
        } else {
          assert Present(xs, f)[k] == f(xs[n]).value;
        }
      }
    }
  }

  /** Python's `s[:n]`. */
  function Take<T(==,!new)>(s: seq<T>, n: nat): (r: seq<T>)
    ensures |r| == if n < |s| then n else |s|
    ensures r == s[..|r|]
  {
    if n < |s| then s[..n] else s
  }

  /** Index of the first occurrence of `x` in `s`. */
  function FirstIndex<T(==,!new)>(s: seq<T>, x: T): (i: nat)
    requires x in s
    ensures i < |s| && s[i] == x
    ensures forall k :: 0 <= k < i ==> s[k] != x
  {
    if s[0] == x then 0 else 1 + FirstIndex(s[1..], x)
  }

  /**
   * Order-preserving de-duplication: a value is kept the first time it is
   * seen, as the `seen`/`out` loops of the application do.
   */
  function Dedup<T(==,!new)>(s: seq<T>): (r: seq<T>)
    ensures forall x :: x in r <==> x in s
    ensures Distinct(r)
    ensures |r| <= |s|
    decreases |s|
  {
    if s == [] then []
    else
      var d := Dedup(s[..|s| - 1]);
      if s[|s| - 1] in d then d else d + [s[|s| - 1]]
  }

  /** One more element: kept at the end when new, ignored when already seen. */
  lemma DedupStep<T(!new)>(s: seq<T>, x: T)
    ensures Dedup(s + [x]) == if x in Dedup(s) then Dedup(s) else Dedup(s) + [x]
  {
    assert (s + [x])[..|s|] == s;
  }

  /** `Dedup` of a non-empty sequence, by its last element. */
  lemma DedupLast<T(!new)>(s: seq<T>)
    requires s != []
    ensures Dedup(s) == if s[|s| - 1] in Dedup(s[..|s| - 1]) then Dedup(s[..|s| - 1]) else Dedup(s[..|s| - 1]) + [s[|s| - 1]]
  {
  }

  lemma {:induction false} FirstIndexInPrefix<T(!new)>(s: seq<T>, m: nat, x: T)
    requires m <= |s| && x in s[..m]
    ensures FirstIndex(s, x) == FirstIndex(s[..m], x)
    decreases m
  {
    assert s[..m][0] == s[0];
    if s[0] != x {
      assert s[..m][1..] == s[1..][..m - 1];
      FirstIndexInPrefix(s[1..], m - 1, x);
    }
  }

  /** Dedup keeps values in the order of their first occurrence in the input. */
  lemma {:induction false} DedupKeepsFirstOccurrenceOrder<T(!new)>(s: seq<T>, i: nat, j: nat)
    requires i < j < |Dedup(s)|
    ensures FirstIndex(s, Dedup(s)[i]) < FirstIndex(s, Dedup(s)[j])
    decreases |s|
  {
    var n := |s|;
    var p, x := s[..n - 1], s[n - 1];
    var d := Dedup(p);
    assert s == p + [x];
    if x in d {
      DedupKeepsFirstOccurrenceOrder(p, i, j);
      FirstIndexInPrefix(s, n - 1, d[i]);
      FirstIndexInPrefix(s, n - 1, d[j]);
    } else if j < |d| {
      DedupKeepsFirstOccurrenceOrder(p, i, j);
      FirstIndexInPrefix(s, n - 1, d[i]);
      FirstIndexInPrefix(s, n - 1, d[j]);
    } else {
      assert Dedup(s)[j] == x && x !in p;
      FirstIndexInPrefix(s, n - 1, d[i]);
    }
  }

  /** Values met first earlier in the input come earlier in its de-duplication. */
  lemma DedupFirstIndexOrder<T(!new)>(s: seq<T>, x: T, y: T)
    requires x in s && y in s && FirstIndex(s, x) < FirstIndex(s, y)
    ensures x in Dedup(s) && y in Dedup(s) && FirstIndex(Dedup(s), x) < FirstIndex(Dedup(s), y)
  {
    var r := Dedup(s);
    var a, b := FirstIndex(r, x), FirstIndex(r, y);
    if b < a {
      DedupKeepsFirstOccurrenceOrder(s, b, a);
    }
  }

  // ----- Counter -----

  function SumCounts<T(==,!new)>(t: seq<(T, nat)>): nat
    decreases |t|
  {
    if t == [] then 0 else t[0].1 + SumCounts(t[1..])
  }

  lemma {:induction false} SumCountsAppend<T(!new)>(a: seq<(T, nat)>, b: seq<(T, nat)>)
    ensures SumCounts(a + b) == SumCounts(a) + SumCounts(b)
    decreases |a|
  {
    if a == [] {
      assert a + b == b;
    } else {
      calc {
        SumCounts(a + b);
        (a + b)[0].1 + SumCounts((a + b)[1..]);
        { assert (a + b)[1..] == a[1..] + b; }
        a[0].1 + SumCounts(a[1..] + b);
        { SumCountsAppend(a[1..], b); }
        a[0].1 + SumCounts(a[1..]) + SumCounts(b);
      }
    }
  }

  lemma SumCountsTake<T(!new)>(t: seq<(T, nat)>, n: nat)
    ensures SumCounts(Take(t, n)) <= SumCounts(t)
  {
    var k := |Take(t, n)|;
    assert t == t[..k] + t[k..];
    SumCountsAppend(t[..k], t[k..]);
  }

  /** Raising one entry's count by one raises the total by one. */
  lemma SumCountsBumpAt<T(!new)>(t: seq<(T, nat)>, i: nat, x: (T, nat))
    requires i < |t| && x.1 == t[i].1 + 1
    ensures SumCounts(t[i := x]) == SumCounts(t) + 1
  {
    assert t == t[..i] + [t[i]] + t[i + 1..];
    assert t[i := x] == t[..i] + [x] + t[i + 1..];
    SumCountsAppend(t[..i] + [t[i]], t[i + 1..]);
    SumCountsAppend(t[..i], [t[i]]);
    SumCountsAppend(t[..i] + [x], t[i + 1..]);
    SumCountsAppend(t[..i], [x]);
  }

  predicate DistinctKeys<T(==,!new)>(t: seq<(T, nat)>) {
    forall i, j :: 0 <= i < j < |t| ==> t[i].0 != t[j].0
  }

  /** Where key `k` stands in a table, or `|t|` when it is absent. */
  function KeyIndex<T(==,!new)>(t: seq<(T, nat)>, k: T): (i: nat)
    ensures i <= |t|
    ensures i < |t| ==> t[i].0 == k
    ensures forall j :: 0 <= j < i ==> t[j].0 != k
    decreases |t|
  {
    if t == [] then 0 else if t[0].0 == k then 0 else 1 + KeyIndex(t[1..], k)
  }

  /** One `counter[k] += 1` step: raise `k` where it stands, or append it with count 1. */
  function Bump<T(==,!new)>(t: seq<(T, nat)>, k: T): seq<(T, nat)> {
    var i := KeyIndex(t, k);
    if i == |t| then t + [(k, 1)] else t[i := (k, t[i].1 + 1)]
  }

  /**
   * `Counter(keys)` as its items: one pair per distinct key, in the order
   * keys first occur, carrying how often the key occurs.
   */
  function Tally<T(==,!new)>(keys: seq<T>): seq<(T, nat)>
    decreases |keys|
  {
    if keys == [] then [] else Bump(Tally(keys[..|keys| - 1]), keys[|keys| - 1])
  }

  predicate HasKey<T(==,!new)>(t: seq<(T, nat)>, k: T) {
    exists i :: 0 <= i < |t| && t[i].0 == k
  }

  lemma KeyIndexFindsKey<T(!new)>(t: seq<(T, nat)>, k: T)
    ensures HasKey(t, k) <==> KeyIndex(t, k) < |t|
  {
    if HasKey(t, k) {
      var i :| 0 <= i < |t| && t[i].0 == k;
      assert KeyIndex(t, k) <= i;
    }
  }

  lemma BumpKeys<T(!new)>(t: seq<(T, nat)>, k: T)
    requires DistinctKeys(t)
    ensures DistinctKeys(Bump(t, k))
    ensures forall x :: HasKey(Bump(t, k), x) <==> HasKey(t, x) || x == k
  {
    KeyIndexFindsKey(t, k);
    var r := Bump(t, k);
    forall x ensures HasKey(r, x) <==> HasKey(t, x) || x == k {
      if HasKey(t, x) {
        var i :| 0 <= i < |t| && t[i].0 == x;
        assert r[i].0 == x;
      }
      if x == k {
        assert r[KeyIndex(t, k)].0 == k;
      }
      if HasKey(r, x) {
        var i :| 0 <= i < |r| && r[i].0 == x;
        if i < |t| { assert t[i].0 == x; }
      }
    }
  }

  lemma BumpCounts<T(!new)>(p: seq<T>, k: T, t: seq<(T, nat)>)
    requires DistinctKeys(t)
    requires forall x :: x in p <==> HasKey(t, x)
    requires forall i :: 0 <= i < |t| ==> t[i].1 == multiset(p)[t[i].0]
    ensures forall i :: 0 <= i < |Bump(t, k)| ==> Bump(t, k)[i].1 == multiset(p + [k])[Bump(t, k)[i].0]
  {
    KeyIndexFindsKey(t, k);
    assert multiset(p + [k]) == multiset(p) + multiset{k};
    var r := Bump(t, k);
    forall i | 0 <= i < |r| ensures r[i].1 == multiset(p + [k])[r[i].0] {
      if i == |t| {
        assert k !in p;
      }
    }
  }

  lemma BumpSum<T(!new)>(t: seq<(T, nat)>, k: T)
    ensures SumCounts(Bump(t, k)) == SumCounts(t) + 1
  {
    var i := KeyIndex(t, k);
    if i == |t| {
      SumCountsAppend(t, [(k, 1)]);
    } else {
      SumCountsBumpAt(t, i, (k, t[i].1 + 1));
    }
  }

  /** The keys of a table, in table order. */
  function KeysOf<T>(t: seq<(T, nat)>): (r: seq<T>)
    ensures |r| == |t|
    ensures forall i :: 0 <= i < |t| ==> r[i] == t[i].0
  {
    seq(|t|, i requires 0 <= i < |t| => t[i].0)
  }

  /**
   * What a Counter holds: distinct keys, exactly the input's, listed in the
   * order they first occur, each with its multiplicity; counts total the
   * input length.
   */
  lemma {:induction false} TallyFacts<T(!new)>(keys: seq<T>)
    ensures DistinctKeys(Tally(keys))
    ensures forall k :: k in keys <==> HasKey(Tally(keys), k)
    ensures KeysOf(Tally(keys)) == Dedup(keys)
    ensures forall i :: 0 <= i < |Tally(keys)| ==> Tally(keys)[i].1 == multiset(keys)[Tally(keys)[i].0]
    ensures SumCounts(Tally(keys)) == |keys|
    decreases |keys|
  {
    if keys != [] {
      var p, k := keys[..|keys| - 1], keys[|keys| - 1];
      var t := Tally(p);
      assert keys == p + [k];
      TallyFacts(p);
      BumpKeys(t, k);
      BumpCounts(p, k, t);
      BumpSum(t, k);
      KeyIndexFindsKey(t, k);
      if KeyIndex(t, k) == |t| {
        assert k !in Dedup(p);
        assert KeysOf(Bump(t, k)) == KeysOf(t) + [k];
      } else {
        assert k in Dedup(p);
        assert KeysOf(Bump(t, k)) == KeysOf(t);
      }
    }
  }

  /** Every key of a tally occurs in the input. */
  lemma TallyKeysOccur<T(!new)>(keys: seq<T>, i: nat)
    requires i < |Tally(keys)|
    ensures Tally(keys)[i].0 in keys
  {
    TallyFacts(keys);
    assert HasKey(Tally(keys), Tally(keys)[i].0);
  }

  /** Every entry of a tally counts at least one occurrence. */
  lemma TallyCountsPositive<T(!new)>(keys: seq<T>, i: nat)
    requires i < |Tally(keys)|
    ensures Tally(keys)[i].1 >= 1
  {
    TallyFacts(keys);
    TallyKeysOccur(keys, i);
  }

  /** When every key is the same `w`, the tally is the single pair (w, |keys|). */
  lemma TallyOfOneKey<T(!new)>(keys: seq<T>, w: T)
    requires keys != [] && forall i :: 0 <= i < |keys| ==> keys[i] == w
    ensures Tally(keys) == [(w, |keys|)]
  {
    TallyFacts(keys);
    var t := Tally(keys);
    assert keys[0] in keys;
    forall i | 0 <= i < |t| ensures t[i].0 == w {
      TallyKeysOccur(keys, i);
    }
    assert |t| == 1 by {
      if |t| > 1 {
        assert false;
      }
    }
    assert t == [t[0]];
    assert SumCounts(t) == t[0].1 + SumCounts(t[1..]);
  }

  // ----- stable ordering by count, then by a tie-break on the key -----

  /** `a` sorts no later than `b`: a higher count, or the same count and a tie-break at least as high. */
  predicate RanksAtLeast<T(==,!new)>(a: (T, nat), b: (T, nat), tiebreak: T -> int) {
    a.1 > b.1 || (a.1 == b.1 && tiebreak(a.0) >= tiebreak(b.0))
  }

  predicate SortedByRank<T(==,!new)>(s: seq<(T, nat)>, tiebreak: T -> int) {
    forall i, j :: 0 <= i < j < |s| ==> RanksAtLeast(s[i], s[j], tiebreak)
  }

  /** Inserts `x` after every entry that ranks at least as high, so equal entries keep their order. */
  function Insert<T(==,!new)>(s: seq<(T, nat)>, x: (T, nat), tiebreak: T -> int): (r: seq<(T, nat)>)
    ensures |r| == |s| + 1
    ensures multiset(r) == multiset(s) + multiset{x}
    ensures SumCounts(r) == SumCounts(s) + x.1
    decreases |s|
  {
    if s == [] then [x]
    else if RanksAtLeast(s[0], x, tiebreak) then
      assert s == [s[0]] + s[1..];
      var r := [s[0]] + Insert(s[1..], x, tiebreak);
      assert r[1..] == Insert(s[1..], x, tiebreak);
      r
    else
      [x] + s
  }

  lemma RanksAtLeastTransitive<T(!new)>(a: (T, nat), b: (T, nat), c: (T, nat), tiebreak: T -> int)
    requires RanksAtLeast(a, b, tiebreak) && RanksAtLeast(b, c, tiebreak)
    ensures RanksAtLeast(a, c, tiebreak)
  {
  }

  /** Inserting into a ranked list keeps it ranked. */
  lemma {:induction false} InsertSorted<T(!new)>(s: seq<(T, nat)>, x: (T, nat), tiebreak: T -> int)
    requires SortedByRank(s, tiebreak)
    ensures SortedByRank(Insert(s, x, tiebreak), tiebreak)
    decreases |s|
  {
    if s != [] {
      if RanksAtLeast(s[0], x, tiebreak) {
        InsertSorted(s[1..], x, tiebreak);
        InsertAfterHeadSorted(s, x, tiebreak);
      } else {
        InsertAtFrontSorted(s, x, tiebreak);
      }
    }
  }

  lemma InsertMember<T(!new)>(s: seq<(T, nat)>, x: (T, nat), tiebreak: T -> int, y: (T, nat))
    requires y in Insert(s, x, tiebreak)
    ensures y == x || y in s
  {
    assert y in multiset(Insert(s, x, tiebreak));
  }

  lemma InsertAfterHeadSorted<T(!new)>(s: seq<(T, nat)>, x: (T, nat), tiebreak: T -> int)
    requires s != [] && RanksAtLeast(s[0], x, tiebreak) && SortedByRank(s, tiebreak)
    requires SortedByRank(Insert(s[1..], x, tiebreak), tiebreak)
    ensures SortedByRank(Insert(s, x, tiebreak), tiebreak)
  {
    var t := Insert(s[1..], x, tiebreak);
    assert Insert(s, x, tiebreak) == [s[0]] + t;
    forall j | 0 <= j < |t| ensures RanksAtLeast(s[0], t[j], tiebreak) {
      InsertMember(s[1..], x, tiebreak, t[j]);
      if t[j] != x {
        HeadRanksAtLeastRest(s, t[j], tiebreak);
      }
    }
    ConsSorted(s[0], t, tiebreak);
  }

  lemma HeadRanksAtLeastRest<T(!new)>(s: seq<(T, nat)>, y: (T, nat), tiebreak: T -> int)
    requires s != [] && SortedByRank(s, tiebreak) && y in s[1..]
    ensures RanksAtLeast(s[0], y, tiebreak)
  {
    var k :| 0 <= k < |s[1..]| && s[1..][k] == y;
    assert s[k + 1] == y;
  }

  /** A ranked list stays ranked under a head that ranks at least as high as each of its entries. */
  lemma ConsSorted<T(!new)>(h: (T, nat), t: seq<(T, nat)>, tiebreak: T -> int)
    requires SortedByRank(t, tiebreak) && forall j :: 0 <= j < |t| ==> RanksAtLeast(h, t[j], tiebreak)
    ensures SortedByRank([h] + t, tiebreak)
  {
    var r := [h] + t;
    forall i, j | 0 <= i < j < |r| ensures RanksAtLeast(r[i], r[j], tiebreak) {
      assert r[j] == t[j - 1];
      if i > 0 {
        assert r[i] == t[i - 1];
      }
    }
  }

  lemma InsertAtFrontSorted<T(!new)>(s: seq<(T, nat)>, x: (T, nat), tiebreak: T -> int)
    requires s != [] && !RanksAtLeast(s[0], x, tiebreak) && SortedByRank(s, tiebreak)
    ensures SortedByRank(Insert(s, x, tiebreak), tiebreak)
  {
    var r := [x] + s;
    assert Insert(s, x, tiebreak) == r;
    forall i, j | 0 <= i < j < |r| ensures RanksAtLeast(r[i], r[j], tiebreak) {
      if i == 0 {
        if j > 1 {
          RanksAtLeastTransitive(x, s[0], s[j - 1], tiebreak);
        }
      } else {
        assert r[i] == s[i - 1] && r[j] == s[j - 1];
      }
    }
  }

  /** Stable sort, highest rank first: `sorted(..., key=-rank)`. */
  function SortByRank<T(==,!new)>(s: seq<(T, nat)>, tiebreak: T -> int): (r: seq<(T, nat)>)
    ensures SortedByRank(r, tiebreak)
    ensures multiset(r) == multiset(s)
    ensures |r| == |s|
    ensures SumCounts(r) == SumCounts(s)
    decreases |s|
  {
    if s == [] then []
    else
      var p := s[..|s| - 1];
      assert s == p + [s[|s| - 1]];
      SumCountsAppend(p, [s[|s| - 1]]);
      InsertSorted(SortByRank(p, tiebreak), s[|s| - 1], tiebreak);
      Insert(SortByRank(p, tiebreak), s[|s| - 1], tiebreak)
  }

  lemma FirstIndexCons<T(!new)>(h: T, s: seq<T>, x: T)
    requires x in s && x != h
    ensures FirstIndex([h] + s, x) == 1 + FirstIndex(s, x)
  {
    assert ([h] + s)[1..] == s;
  }

  /** Inserting `x` keeps the relative order of the other entries. */
  lemma {:induction false} InsertKeepsOrder<T(!new)>(s: seq<(T, nat)>, x: (T, nat), tiebreak: T -> int, a: (T, nat), b: (T, nat))
    requires a in s && b in s && a != x && b != x
    requires FirstIndex(s, a) < FirstIndex(s, b)
    ensures a in Insert(s, x, tiebreak) && b in Insert(s, x, tiebreak)
    ensures FirstIndex(Insert(s, x, tiebreak), a) < FirstIndex(Insert(s, x, tiebreak), b)
    decreases |s|
  {
    var r := Insert(s, x, tiebreak);
    assert a in multiset(r) && b in multiset(r);
    if RanksAtLeast(s[0], x, tiebreak) {
      var t := Insert(s[1..], x, tiebreak);
      assert r == [s[0]] + t;
      if a != s[0] {
        InsertKeepsOrder(s[1..], x, tiebreak, a, b);
        FirstIndexCons(s[0], t, a);
        FirstIndexCons(s[0], t, b);
      }
    } else {
      assert r == [x] + s;
      FirstIndexCons(x, s, a);
      FirstIndexCons(x, s, b);
    }
  }

  /** In a ranked list, a new `x` is inserted after every entry that ranks at least as high. */
  lemma {:induction false} InsertAfterPeers<T(!new)>(s: seq<(T, nat)>, x: (T, nat), tiebreak: T -> int, a: (T, nat))
    requires SortedByRank(s, tiebreak) && x !in s && a in s && RanksAtLeast(a, x, tiebreak)
    ensures a in Insert(s, x, tiebreak) && x in Insert(s, x, tiebreak)
    ensures FirstIndex(Insert(s, x, tiebreak), a) < FirstIndex(Insert(s, x, tiebreak), x)
    decreases |s|
  {
    var r := Insert(s, x, tiebreak);
    assert a in multiset(r) && x in multiset(r);
    var k := FirstIndex(s, a);
    if k > 0 {
      assert RanksAtLeast(s[0], s[k], tiebreak);
    }
    RanksAtLeastTransitive(s[0], a, x, tiebreak);
    var t := Insert(s[1..], x, tiebreak);
    assert r == [s[0]] + t;
    if a != s[0] {
      assert s[1..][k - 1] == a;
      InsertAfterPeers(s[1..], x, tiebreak, a);
      FirstIndexCons(s[0], t, a);
      FirstIndexCons(s[0], t, x);
    }
  }

  /**
   * The sort is stable: of two distinct entries where the earlier ranks at
   * least as high as the later, the earlier comes first in the result.
   */
  lemma {:induction false} SortByRankStable<T(!new)>(s: seq<(T, nat)>, tiebreak: T -> int, i: nat, j: nat)
    requires Distinct(s) && i < j < |s| && RanksAtLeast(s[i], s[j], tiebreak)
    ensures s[i] in SortByRank(s, tiebreak) && s[j] in SortByRank(s, tiebreak)
    ensures FirstIndex(SortByRank(s, tiebreak), s[i]) < FirstIndex(SortByRank(s, tiebreak), s[j])
    decreases |s|
  {
    var n := |s| - 1;
    var p, x := s[..n], s[n];
    var q := SortByRank(p, tiebreak);
    SortByRankLast(s, tiebreak);
    SortedMembers(s, tiebreak, i);
    var a, b := s[i], s[j];
    var r := Insert(q, x, tiebreak);
    assert SortByRank(s, tiebreak) == r;
    if j < n {
      SortedMembers(s, tiebreak, j);
      SortByRankStable(p, tiebreak, i, j);
      InsertKeepsOrder(q, x, tiebreak, a, b);
      assert a in r && b in r && FirstIndex(r, a) < FirstIndex(r, b);
    } else {
      assert b == x;
      InsertAfterPeers(q, x, tiebreak, a);
      assert a in r && x in r && FirstIndex(r, a) < FirstIndex(r, x);
    }
  }

  /** Sorting a repeat-free sequence inserts its last entry, which its sorted prefix lacks. */
  lemma SortByRankLast<T(!new)>(s: seq<(T, nat)>, tiebreak: T -> int)
    requires Distinct(s) && s != []
    ensures SortByRank(s, tiebreak) == Insert(SortByRank(s[..|s| - 1], tiebreak), s[|s| - 1], tiebreak)
    ensures Distinct(s[..|s| - 1])
    ensures s[|s| - 1] !in SortByRank(s[..|s| - 1], tiebreak)
  {
    var n := |s| - 1;
    var p, x := s[..n], s[n];
    assert s == p + [x];
    forall k | 0 <= k < n ensures p[k] != x {
      assert p[k] == s[k];
    }
    assert x !in multiset(SortByRank(p, tiebreak));
  }

  /** An entry of the prefix before the last is in the sorted prefix. */
  lemma SortedMembers<T(!new)>(s: seq<(T, nat)>, tiebreak: T -> int, i: nat)
    requires i < |s| - 1
    ensures s[..|s| - 1][i] == s[i] && s[i] in SortByRank(s[..|s| - 1], tiebreak)
  {
    var p := s[..|s| - 1];
    assert p[i] in multiset(p);
    assert p[i] in multiset(SortByRank(p, tiebreak));
  }

  lemma {:induction false} DistinctCounts<T(!new)>(s: seq<T>, x: T)
    requires Distinct(s)
    ensures multiset(s)[x] <= 1
    decreases |s|
  {
    if s != [] {
      var n := |s| - 1;
      assert s == s[..n] + [s[n]];
      DistinctCounts(s[..n], x);
      if x == s[n] {
        forall k | 0 <= k < n ensures s[..n][k] != x {
          assert s[..n][k] == s[k];
        }
      }
    }
  }

  /** A permutation of a repeat-free sequence is repeat-free. */
  lemma PermutationDistinct<T(!new)>(s: seq<T>, r: seq<T>)
    requires Distinct(s) && multiset(r) == multiset(s)
    ensures Distinct(r)
  {
    forall i, j | 0 <= i < j < |r| ensures r[i] != r[j] {
      if r[i] == r[j] {
        assert r == r[..j] + [r[j]] + r[j + 1..];
        assert r[..j][i] == r[i];
        DistinctCounts(s, r[i]);
        assert false;
      }
    }
  }

  function NoTiebreak<T(==,!new)>(k: T): int { 0 }

  /** `Counter(keys).most_common(n)`: counts descending, ties in first-occurrence order, at most `n`. */
  function MostCommon<T(==,!new)>(keys: seq<T>, n: nat): (r: seq<(T, nat)>)
  {
    Take(SortByRank(Tally(keys), NoTiebreak), n)
  }

  /** Each entry `most_common` returns is a key of the input with its true count, at least one. */
  lemma MostCommonEntry<T(!new)>(keys: seq<T>, n: nat, i: nat)
    requires i < |MostCommon(keys, n)|
    ensures MostCommon(keys, n)[i].0 in keys
    ensures MostCommon(keys, n)[i].1 == multiset(keys)[MostCommon(keys, n)[i].0] >= 1
  {
    var t := Tally(keys);
    var s := SortByRank(t, NoTiebreak);
    assert MostCommon(keys, n)[i] == s[i];
    assert s[i] in multiset(t);
    var k :| 0 <= k < |t| && t[k] == s[i];
    TallyFacts(keys);
    TallyKeysOccur(keys, k);
  }

  /** `most_common(n)` returns at most n entries, by non-increasing count, whose counts total at most the input length. */
  lemma MostCommonShape<T(!new)>(keys: seq<T>, n: nat)
    ensures |MostCommon(keys, n)| <= n
    ensures forall i, j :: 0 <= i < j < |MostCommon(keys, n)| ==> MostCommon(keys, n)[i].1 >= MostCommon(keys, n)[j].1
    ensures SumCounts(MostCommon(keys, n)) <= |keys|
    ensures keys != [] && n > 0 ==> |MostCommon(keys, n)| > 0
  {
    TallyFacts(keys);
    SumCountsTake(SortByRank(Tally(keys), NoTiebreak), n);
    if keys != [] && n > 0 {
      assert HasKey(Tally(keys), keys[0]);
    }
  }

  /** Entries of equal count come out of the sort in their input order. */
  lemma SortedTiesInInputOrder<T(!new)>(s: seq<(T, nat)>, i: nat, j: nat)
    requires Distinct(s) && i < j < |s|
    requires SortByRank(s, NoTiebreak)[i].1 == SortByRank(s, NoTiebreak)[j].1
    ensures SortByRank(s, NoTiebreak)[i] in s && SortByRank(s, NoTiebreak)[j] in s
    ensures FirstIndex(s, SortByRank(s, NoTiebreak)[i]) < FirstIndex(s, SortByRank(s, NoTiebreak)[j])
  {
    var r := SortByRank(s, NoTiebreak);
    var a, b := r[i], r[j];
    assert a in s && b in s by {
      assert a in multiset(r) && b in multiset(r);
    }
    assert a != b && FirstIndex(r, a) == i && FirstIndex(r, b) == j by {
      PermutationDistinct(s, r);
    }
    var ia, ib := FirstIndex(s, a), FirstIndex(s, b);
    assert s[ia] == a && s[ib] == b && ia != ib;
    if ib < ia {
      assert RanksAtLeast(s[ib], s[ia], NoTiebreak);
      SortByRankStable(s, NoTiebreak, ib, ia);
      assert false;
    }
  }

  /** `most_common` breaks ties between equal counts by first occurrence in the input. */
  lemma MostCommonTiesInOrder<T(!new)>(keys: seq<T>, n: nat, i: nat, j: nat)
    requires i < j < |MostCommon(keys, n)| && MostCommon(keys, n)[i].1 == MostCommon(keys, n)[j].1
    ensures MostCommon(keys, n)[i].0 in keys && MostCommon(keys, n)[j].0 in keys
    ensures FirstIndex(keys, MostCommon(keys, n)[i].0) < FirstIndex(keys, MostCommon(keys, n)[j].0)
  {
    var t := Tally(keys);
    var r := SortByRank(t, NoTiebreak);
    assert MostCommon(keys, n)[i] == r[i] && MostCommon(keys, n)[j] == r[j];
    TallyFacts(keys);
    SortedTiesInInputOrder(t, i, j);
    var ia, ib := FirstIndex(t, r[i]), FirstIndex(t, r[j]);
    var d := Dedup(keys);
    assert d[ia] == r[i].0 && d[ib] == r[j].0;
    DedupKeepsFirstOccurrenceOrder(keys, ia, ib);
  }

  lemma TakeHasKey<T(!new)>(r: seq<(T, nat)>, n: nat, p: nat)
    requires p < |r|
    ensures p < n ==> HasKey(Take(r, n), r[p].0)
  {
    if p < n {
      assert Take(r, n)[p] == r[p];
    }
  }

  /**
   * `most_common(n)` keeps the `n` most common keys: when it leaves out a key
   * of the input, it is full and every key it keeps occurs at least as often.
   */
  lemma MostCommonTop<T(!new)>(keys: seq<T>, n: nat, k: T)
    requires k in keys && !HasKey(MostCommon(keys, n), k)
    ensures |MostCommon(keys, n)| == n
    ensures forall i :: 0 <= i < n ==> multiset(keys)[k] <= MostCommon(keys, n)[i].1
  {
    var t := Tally(keys);
    var r := SortByRank(t, NoTiebreak);
    TallyFacts(keys);
    var m :| 0 <= m < |t| && t[m].0 == k;
    var e := t[m];
    assert e in multiset(r);
    var p := FirstIndex(r, e);
    TakeHasKey(r, n, p);
    forall i | 0 <= i < n ensures multiset(keys)[k] <= MostCommon(keys, n)[i].1 {
      assert MostCommon(keys, n)[i] == r[i];
      assert RanksAtLeast(r[i], r[p], NoTiebreak);
    }
  }

  /** `MostCommonEntry` for an entry given by value. */
  lemma MostCommonMember<T(!new)>(keys: seq<T>, n: nat, x: (T, nat))
    requires x in MostCommon(keys, n)
    ensures x.0 in keys && x.1 == multiset(keys)[x.0] >= 1
  {
    var i :| 0 <= i < |MostCommon(keys, n)| && MostCommon(keys, n)[i] == x;
    MostCommonEntry(keys, n, i);
  }
}
