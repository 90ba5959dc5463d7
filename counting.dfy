/**
  `collections.Counter` and its `most_common(n)`, which the statistics also use
  for pandas' `value_counts()` and `value_counts().head()`.

  A `Counter` built from a list remembers its keys in the order they are first
  seen (it is a dict); `most_common(n)` sorts the entries by count, highest
  first, with a stable sort, so entries with equal counts stay in first-seen
  order, and keeps the first `n`.
*/
module Counting {

  /** One row of a frequency table: a value and how often it occurs. */
  datatype Entry<T> = Entry(key: T, count: nat)

  /** The sum of the counts of a table. */
  function Total<T>(t: seq<Entry<T>>): nat
  {
    if t == [] then 0 else t[0].count + Total(t[1..])
  }

  function KeysOf<T>(t: seq<Entry<T>>): (ks: seq<T>)
    ensures |ks| == |t|
    ensures forall i :: 0 <= i < |t| ==> ks[i] == t[i].key
  {
    seq(|t|, i requires 0 <= i < |t| => t[i].key)
  }

  /** Putting an entry in front of a table. */
  lemma ConsFacts<T>(e: Entry<T>, t: seq<Entry<T>>)
    ensures ([e] + t)[1..] == t
    ensures KeysOf([e] + t) == [e.key] + KeysOf(t)
    ensures Total([e] + t) == e.count + Total(t)
  {
    var r := [e] + t;
    assert r[1..] == t;
    assert Total(r) == r[0].count + Total(r[1..]);
    forall i | 0 <= i < |r| ensures KeysOf(r)[i] == ([e.key] + KeysOf(t))[i] {
      if i > 0 {
        assert r[i] == t[i - 1];
      }
    }
  }

  /** The key of an entry of a table is listed among its keys. */
  lemma KeyOfMember<T>(s: seq<Entry<T>>, e: Entry<T>)
    requires e in s
    ensures e.key in KeysOf(s)
  {
    var k :| 0 <= k < |s| && s[k] == e;
    assert KeysOf(s)[k] == e.key;
  }

  /** A position of a listed key. */
  lemma IndexOfKey<T>(s: seq<Entry<T>>, x: T) returns (j: nat)
    requires x in KeysOf(s)
    ensures j < |s| && s[j].key == x
  {
    j :| 0 <= j < |s| && KeysOf(s)[j] == x;
  }

  predicate DistinctKeys<T(==)>(t: seq<Entry<T>>)
  {
    forall i, j :: 0 <= i < j < |t| ==> t[i].key != t[j].key
  }

  /** The position of the first occurrence of `x` in `xs`. */
  function FirstIndex<T(==)>(xs: seq<T>, x: T): (k: nat)
    requires x in xs
    ensures k < |xs| && xs[k] == x && x !in xs[..k]
  {
    if xs[0] == x then 0 else 1 + FirstIndex(xs[1..], x)
  }

  lemma FirstIndexUnique<T>(xs: seq<T>, x: T, k: nat)
    requires k < |xs| && xs[k] == x && x !in xs[..k]
    ensures FirstIndex(xs, x) == k
  {
  }

  /** Appending to a list moves no first occurrence of a value already in it. */
  lemma FirstIndexAppend<T>(xs: seq<T>, x: T, k: T)
    requires k in xs
    ensures FirstIndex(xs + [x], k) == FirstIndex(xs, k)
  {
    var f := FirstIndex(xs, k);
    assert (xs + [x])[..f] == xs[..f];
    FirstIndexUnique(xs + [x], k, f);
  }

  // ---------------------------------------------------------------------------
  // Counter(xs)

  /**
    `t` is `Counter(xs)`: every distinct value of `xs` exactly once, with its
    number of occurrences, in the order of first occurrence.
  */
  ghost predicate IsCounterOf<T>(xs: seq<T>, t: seq<Entry<T>>)
  {
    && DistinctKeys(t)
    && (forall i :: 0 <= i < |t| ==> t[i].key in xs && t[i].count == multiset(xs)[t[i].key])
    && (forall x :: x in xs ==> x in KeysOf(t))
    && (forall i, j :: 0 <= i < j < |t| ==> FirstIndex(xs, t[i].key) < FirstIndex(xs, t[j].key))
    && Total(t) == |xs|
  }

  lemma {:induction false} TotalUpdate<T>(t: seq<Entry<T>>, j: nat, e: Entry<T>)
    requires j < |t|
    ensures Total(t[j := e]) + t[j].count == Total(t) + e.count
  {
    if j == 0 {
      assert t[j := e][1..] == t[1..];
    } else {
      assert t[j := e][1..] == t[1..][j - 1 := e];
      TotalUpdate(t[1..], j - 1, e);
    }
  }

  lemma {:induction false} TotalSnoc<T>(t: seq<Entry<T>>, e: Entry<T>)
    ensures Total(t + [e]) == Total(t) + e.count
  {
    if t == [] {
      assert [e][1..] == [];
    } else {
      assert (t + [e])[1..] == t[1..] + [e];
      TotalSnoc(t[1..], e);
    }
  }

  /** One step of building a Counter: count `x` once more, or add it at the end with count 1. */
  function Bump<T(==)>(t: seq<Entry<T>>, x: T): (r: seq<Entry<T>>)
    requires DistinctKeys(t)
    ensures Total(r) == Total(t) + 1
    ensures x in KeysOf(t) ==> |r| == |t| && forall i :: 0 <= i < |t| ==>
      r[i].key == t[i].key && r[i].count == t[i].count + (if t[i].key == x then 1 else 0)
    ensures x !in KeysOf(t) ==> r == t + [Entry(x, 1)]
  {
    if x in KeysOf(t) then
      var j := FirstIndex(KeysOf(t), x);
      assert t[j].key == x;
      TotalUpdate(t, j, Entry(x, t[j].count + 1));
      t[j := Entry(x, t[j].count + 1)]
    else
      TotalSnoc(t, Entry(x, 1));
      t + [Entry(x, 1)]
  }

  /** Appending `x` keeps every first occurrence and adds one occurrence of `x`. */
  lemma AppendFacts<T>(xs: seq<T>, x: T)
    ensures multiset(xs + [x]) == multiset(xs) + multiset{x}
    ensures forall k :: k in xs ==> FirstIndex(xs + [x], k) == FirstIndex(xs, k)
  {
    forall k | k in xs ensures FirstIndex(xs + [x], k) == FirstIndex(xs, k) {
      FirstIndexAppend(xs, x, k);
    }
  }

  /** Counting a value already in the Counter. */
  lemma BumpSeen<T>(xs: seq<T>, x: T, t: seq<Entry<T>>)
    requires IsCounterOf(xs, t) && x in KeysOf(t)
    ensures IsCounterOf(xs + [x], Bump(t, x))
  {
    var r := Bump(t, x);
    var ys := xs + [x];
    AppendFacts(xs, x);
    assert KeysOf(r) == KeysOf(t);
    assert DistinctKeys(r) by {
      forall i, j | 0 <= i < j < |r| ensures r[i].key != r[j].key {
        assert r[i].key == t[i].key && r[j].key == t[j].key;
      }
    }
    forall i | 0 <= i < |r| ensures r[i].key in ys && r[i].count == multiset(ys)[r[i].key] {
      assert r[i].key == t[i].key;
    }
    forall k | k in ys ensures k in KeysOf(r) {
      if k != x {
        assert k in xs;
      }
    }
    forall i, j | 0 <= i < j < |r| ensures FirstIndex(ys, r[i].key) < FirstIndex(ys, r[j].key) {
      assert r[i].key == t[i].key && r[j].key == t[j].key;
    }
  }

  lemma NewKeyDistinct<T>(t: seq<Entry<T>>, x: T)
    requires DistinctKeys(t) && x !in KeysOf(t)
    ensures DistinctKeys(t + [Entry(x, 1)])
  {
    var r := t + [Entry(x, 1)];
    forall i, j | 0 <= i < j < |r| ensures r[i].key != r[j].key {
      assert r[i] == t[i];
      if j < |t| {
        assert r[j] == t[j];
      } else {
        assert KeysOf(t)[i] == t[i].key;
      }
    }
  }

  lemma NewKeyCounts<T>(xs: seq<T>, x: T, t: seq<Entry<T>>)
    requires forall i :: 0 <= i < |t| ==> t[i].key in xs && t[i].count == multiset(xs)[t[i].key]
    requires x !in xs
    ensures var r, ys := t + [Entry(x, 1)], xs + [x];
      forall i :: 0 <= i < |r| ==> r[i].key in ys && r[i].count == multiset(ys)[r[i].key]
  {
    var r, ys := t + [Entry(x, 1)], xs + [x];
    assert multiset(ys) == multiset(xs) + multiset{x};
    forall i | 0 <= i < |r| ensures r[i].key in ys && r[i].count == multiset(ys)[r[i].key] {
      if i < |t| {
        assert r[i] == t[i];
      }
    }
  }

  lemma NewKeyOrder<T>(xs: seq<T>, x: T, t: seq<Entry<T>>)
    requires forall i :: 0 <= i < |t| ==> t[i].key in xs
    requires forall i, j :: 0 <= i < j < |t| ==> FirstIndex(xs, t[i].key) < FirstIndex(xs, t[j].key)
    requires x !in xs
    ensures var r, ys := t + [Entry(x, 1)], xs + [x];
      forall i, j :: 0 <= i < j < |r| ==> FirstIndex(ys, r[i].key) < FirstIndex(ys, r[j].key)
  {
    var r, ys := t + [Entry(x, 1)], xs + [x];
    AppendFacts(xs, x);
    assert ys[..|xs|] == xs;
    FirstIndexUnique(ys, x, |xs|);
    forall i, j | 0 <= i < j < |r| ensures FirstIndex(ys, r[i].key) < FirstIndex(ys, r[j].key) {
      assert r[i] == t[i];
      if j < |t| {
        assert r[j] == t[j];
      }
    }
  }

  lemma NewKeyCovers<T>(xs: seq<T>, x: T, t: seq<Entry<T>>)
    requires forall k :: k in xs ==> k in KeysOf(t)
    ensures forall k :: k in xs + [x] ==> k in KeysOf(t + [Entry(x, 1)])
  {
    assert KeysOf(t + [Entry(x, 1)]) == KeysOf(t) + [x];
  }

  /** Counting a value seen for the first time. */
  lemma AddUnseen<T>(xs: seq<T>, x: T, t: seq<Entry<T>>)
    requires IsCounterOf(xs, t) && x !in xs
    ensures IsCounterOf(xs + [x], t + [Entry(x, 1)])
  {
    assert x !in KeysOf(t);
    NewKeyDistinct(t, x);
    NewKeyCounts(xs, x, t);
    NewKeyOrder(xs, x, t);
    NewKeyCovers(xs, x, t);
    TotalSnoc(t, Entry(x, 1));
  }

  lemma BumpCounter<T>(xs: seq<T>, x: T, t: seq<Entry<T>>)
    requires IsCounterOf(xs, t)
    ensures IsCounterOf(xs + [x], Bump(t, x))
  {
    if x in KeysOf(t) {
      BumpSeen(xs, x, t);
    } else {
      AddUnseen(xs, x, t);
    }
  }

  /** `Counter(xs)`: every distinct value of `xs` with its number of occurrences, in first-seen order. */
  function Tally<T(==)>(xs: seq<T>): (t: seq<Entry<T>>)
    ensures IsCounterOf(xs, t)
    decreases |xs|
  {
    if xs == [] then []
    else
      var n := |xs| - 1;
      assert xs == xs[..n] + [xs[n]];
      BumpCounter(xs[..n], xs[n], Tally(xs[..n]));
      Bump(Tally(xs[..n]), xs[n])
  }

  /** `a` comes before `b` in `most_common`: a higher count, or the same count and seen earlier. */
  predicate Before<T(==)>(xs: seq<T>, a: Entry<T>, b: Entry<T>)
  {
    a.count > b.count
    || (a.count == b.count && a.key in xs && b.key in xs && FirstIndex(xs, a.key) < FirstIndex(xs, b.key))
  }

  predicate Ranked<T(==)>(xs: seq<T>, s: seq<Entry<T>>)
  {
    forall i, j :: 0 <= i < j < |s| ==> Before(xs, s[i], s[j])
  }

  lemma BeforeTransitive<T>(xs: seq<T>, a: Entry<T>, b: Entry<T>, c: Entry<T>)
    requires Before(xs, a, b) && Before(xs, b, c)
    ensures Before(xs, a, c)
  {
  }

  /** Two entries with different keys of `xs` are always ordered one way or the other. */
  lemma BeforeTotal<T>(xs: seq<T>, a: Entry<T>, b: Entry<T>)
    requires a.key in xs && b.key in xs && a.key != b.key
    ensures Before(xs, a, b) || Before(xs, b, a)
  {
    assert FirstIndex(xs, a.key) != FirstIndex(xs, b.key);
  }

  lemma RankedCons<T>(xs: seq<T>, a: Entry<T>, s: seq<Entry<T>>)
    requires Ranked(xs, s)
    requires forall k :: 0 <= k < |s| ==> Before(xs, a, s[k])
    ensures Ranked(xs, [a] + s)
  {
    var r := [a] + s;
    forall i, j | 0 <= i < j < |r| ensures Before(xs, r[i], r[j]) {
      assert r[j] == s[j - 1];
      if i > 0 {
        assert r[i] == s[i - 1];
      }
    }
  }

  /** Puts `e` into a table at its place in `most_common` order. */
  function Insert<T(==)>(xs: seq<T>, e: Entry<T>, s: seq<Entry<T>>): (r: seq<Entry<T>>)
    ensures multiset(r) == multiset(s) + multiset{e}
    ensures |r| == |s| + 1
    ensures Total(r) == Total(s) + e.count
  {
    if s == [] || Before(xs, e, s[0]) then
      assert ([e] + s)[1..] == s;
      [e] + s
    else
      var rest := Insert(xs, e, s[1..]);
      assert s == [s[0]] + s[1..];
      assert ([s[0]] + rest)[1..] == rest;
      [s[0]] + rest
  }

  lemma {:induction false} InsertRanked<T>(xs: seq<T>, e: Entry<T>, s: seq<Entry<T>>)
    requires e.key in xs
    requires forall k :: 0 <= k < |s| ==> s[k].key in xs && s[k].key != e.key
    requires Ranked(xs, s)
    ensures Ranked(xs, Insert(xs, e, s))
  {
    if s == [] || Before(xs, e, s[0]) {
      forall k | 0 <= k < |s| ensures Before(xs, e, s[k]) {
        if k > 0 {
          BeforeTransitive(xs, e, s[0], s[k]);
        }
      }
      RankedCons(xs, e, s);
    } else {
      var rest := Insert(xs, e, s[1..]);
      assert s == [s[0]] + s[1..];
      BeforeTotal(xs, e, s[0]);
      InsertRanked(xs, e, s[1..]);
      forall k | 0 <= k < |rest| ensures Before(xs, s[0], rest[k]) {
        assert rest[k] in multiset(rest);
        assert rest[k] == e || rest[k] in s[1..];
      }
      RankedCons(xs, s[0], rest);
    }
  }

  /** Sorts a table into `most_common` order (an insertion sort). */
  function SortByCount<T(==)>(xs: seq<T>, t: seq<Entry<T>>): (r: seq<Entry<T>>)
    ensures multiset(r) == multiset(t)
    ensures |r| == |t|
    ensures Total(r) == Total(t)
  {
    if t == [] then []
    else
      assert t == [t[0]] + t[1..];
      Insert(xs, t[0], SortByCount(xs, t[1..]))
  }

  lemma {:induction false} SortByCountRanked<T>(xs: seq<T>, t: seq<Entry<T>>)
    requires forall k :: 0 <= k < |t| ==> t[k].key in xs
    requires DistinctKeys(t)
    ensures Ranked(xs, SortByCount(xs, t))
  {
    if t != [] {
      var rest := SortByCount(xs, t[1..]);
      SortByCountRanked(xs, t[1..]);
      forall k | 0 <= k < |rest| ensures rest[k].key in xs && rest[k].key != t[0].key {
        assert rest[k] in multiset(rest);
        assert rest[k] in t[1..];
      }
      InsertRanked(xs, t[0], rest);
    }
  }

  lemma {:induction false} TotalPrefix<T>(s: seq<Entry<T>>, n: nat)
    requires n <= |s|
    ensures Total(s[..n]) <= Total(s)
  {
    if n > 0 {
      assert s[..n][1..] == s[1..][..n - 1];
      TotalPrefix(s[1..], n - 1);
    }
  }

  /** `b` ranks below `a` in `most_common(xs)`. */
  predicate Outranks<T(==)>(xs: seq<T>, a: T, b: T)
    requires a in xs && b in xs
  {
    multiset(xs)[a] > multiset(xs)[b]
    || (multiset(xs)[a] == multiset(xs)[b] && FirstIndex(xs, a) < FirstIndex(xs, b))
  }

  /** `s` holds the entries of `Counter(xs)`, ranked in `most_common` order. */
  ghost predicate IsRankedCounterOf<T>(xs: seq<T>, s: seq<Entry<T>>)
  {
    && Ranked(xs, s)
    && (forall i :: 0 <= i < |s| ==> s[i].key in xs && s[i].count == multiset(xs)[s[i].key])
    && (forall x :: x in xs ==> x in KeysOf(s))
    && Total(s) == |xs|
  }

  lemma SortedEntries<T>(xs: seq<T>)
    ensures var s := SortByCount(xs, Tally(xs));
      forall i :: 0 <= i < |s| ==> s[i].key in xs && s[i].count == multiset(xs)[s[i].key]
  {
    var t := Tally(xs);
    var s := SortByCount(xs, t);
    forall i | 0 <= i < |s| ensures s[i].key in xs && s[i].count == multiset(xs)[s[i].key] {
      assert s[i] in multiset(s);
      assert s[i] in t;
    }
  }

  lemma SortedKeys<T>(xs: seq<T>)
    ensures forall x :: x in xs ==> x in KeysOf(SortByCount(xs, Tally(xs)))
  {
    var t := Tally(xs);
    var s := SortByCount(xs, t);
    forall x | x in xs ensures x in KeysOf(s) {
      var j := IndexOfKey(t, x);
      assert t[j] in multiset(s);
      KeyOfMember(s, t[j]);
    }
  }

  lemma SortedCounter<T>(xs: seq<T>)
    ensures IsRankedCounterOf(xs, SortByCount(xs, Tally(xs)))
  {
    SortByCountRanked(xs, Tally(xs));
    SortedEntries(xs);
    SortedKeys(xs);
  }

  /** The first `n` entries of a table (all of them when it has no more). */
  function Take<T>(s: seq<Entry<T>>, n: nat): (r: seq<Entry<T>>)
    ensures |r| == if n < |s| then n else |s|
    ensures forall i :: 0 <= i < |r| ==> r[i] == s[i]
    ensures Total(r) <= Total(s)
  {
    if n < |s| then
      TotalPrefix(s, n);
      s[..n]
    else s
  }

  /** The first `n` entries of a ranked Counter keep its ranking and its distinct keys. */
  lemma TopOfRanked<T>(xs: seq<T>, s: seq<Entry<T>>, n: nat)
    requires IsRankedCounterOf(xs, s)
    ensures forall i :: 0 <= i < |Take(s, n)| ==>
      Take(s, n)[i].key in xs && Take(s, n)[i].count == multiset(xs)[Take(s, n)[i].key]
    ensures DistinctKeys(Take(s, n))
    ensures Ranked(xs, Take(s, n))
  {
    var r := Take(s, n);
    forall i, j | 0 <= i < j < |r| ensures r[i].key != r[j].key && Before(xs, r[i], r[j]) {
      assert Before(xs, s[i], s[j]);
    }
  }

  /** A value left out of the first `n` entries of a ranked Counter ranks below all of them. */
  lemma OmittedRanksLower<T>(xs: seq<T>, s: seq<Entry<T>>, n: nat, x: T)
    requires IsRankedCounterOf(xs, s)
    requires x in xs && x !in KeysOf(Take(s, n))
    ensures n < |s|
    ensures forall i :: 0 <= i < n ==> Outranks(xs, s[i].key, x)
  {
    var k :| 0 <= k < |s| && KeysOf(s)[k] == x;
    assert k >= |Take(s, n)|;
    forall i | 0 <= i < n ensures Outranks(xs, s[i].key, x) {
      assert Before(xs, s[i], s[k]);
    }
  }

  /** Taking at least as many entries as there are gives the whole ranked Counter. */
  lemma TakeAll<T>(xs: seq<T>, s: seq<Entry<T>>, n: nat)
    requires IsRankedCounterOf(xs, s)
    ensures n >= |s| ==> Take(s, n) == s
    ensures n >= |s| ==> forall x :: x in xs ==> x in KeysOf(Take(s, n))
    ensures n >= |s| ==> Total(Take(s, n)) == |xs|
  {
  }

  /** Counts do not increase along the first `n` entries, and ties keep first-seen order. */
  lemma TakeOrdered<T>(xs: seq<T>, s: seq<Entry<T>>, n: nat)
    requires IsRankedCounterOf(xs, s)
    ensures var r := Take(s, n);
      && (forall i, j :: 0 <= i < j < |r| ==> r[i].count >= r[j].count)
      && (forall i, j :: 0 <= i < j < |r| && r[i].count == r[j].count ==>
            FirstIndex(xs, r[i].key) < FirstIndex(xs, r[j].key))
  {
    TopOfRanked(xs, s, n);
  }

  /** Every value left out of the first `n` entries ranks below each of them. */
  lemma TakeOmitted<T>(xs: seq<T>, s: seq<Entry<T>>, n: nat)
    requires IsRankedCounterOf(xs, s)
    ensures var r := Take(s, n);
      forall x :: x in xs && x !in KeysOf(r) ==>
        |r| == n && forall i :: 0 <= i < |r| ==> Outranks(xs, r[i].key, x)
  {
    var r := Take(s, n);
    forall x | x in xs && x !in KeysOf(r)
      ensures |r| == n && forall i :: 0 <= i < |r| ==> Outranks(xs, r[i].key, x)
    {
      OmittedRanksLower(xs, s, n, x);
    }
  }

  /**
    `Counter(xs).most_common(n)`: the `n` most frequent values of `xs` (all of
    them when there are no more than `n`), highest count first, equal counts in
    first-seen order.
  */
  function MostCommon<T(==)>(xs: seq<T>, n: nat): (r: seq<Entry<T>>)
    ensures |r| == if n < |Tally(xs)| then n else |Tally(xs)|
    ensures forall i :: 0 <= i < |r| ==> r[i].key in xs && r[i].count == multiset(xs)[r[i].key]
    ensures DistinctKeys(r)
    ensures forall i, j :: 0 <= i < j < |r| ==> r[i].count >= r[j].count
    ensures forall i, j :: 0 <= i < j < |r| && r[i].count == r[j].count ==>
      FirstIndex(xs, r[i].key) < FirstIndex(xs, r[j].key)
    ensures forall x :: x in xs && x !in KeysOf(r) ==>
      |r| == n && forall i :: 0 <= i < |r| ==> Outranks(xs, r[i].key, x)
    ensures n >= |Tally(xs)| ==> forall x :: x in xs ==> x in KeysOf(r)
    ensures Total(r) <= |xs|
    ensures n >= |Tally(xs)| ==> Total(r) == |xs|
  {
    var s := SortByCount(xs, Tally(xs));
    SortedCounter(xs);
    TopOfRanked(xs, s, n);
    TakeOrdered(xs, s, n);
    TakeOmitted(xs, s, n);
    TakeAll(xs, s, n);
    Take(s, n)
  }

  // ---------------------------------------------------------------------------
  // Counting over a partition

  /** The total number of occurrences in `xs` of the values listed in `ks`. */
  function SumCounts<T(==)>(ks: seq<T>, xs: seq<T>): nat
  {
    if ks == [] then 0 else multiset(xs)[ks[0]] + SumCounts(ks[1..], xs)
  }

  predicate Distinct<T(==)>(ks: seq<T>)
  {
    forall i, j :: 0 <= i < j < |ks| ==> ks[i] != ks[j]
  }

  lemma {:induction false} SumCountsAppend<T>(a: seq<T>, b: seq<T>, xs: seq<T>)
    ensures SumCounts(a + b, xs) == SumCounts(a, xs) + SumCounts(b, xs)
  {
    if a == [] {
      assert a + b == b;
    } else {
      assert (a + b)[1..] == a[1..] + b;
      SumCountsAppend(a[1..], b, xs);
    }
  }

  lemma {:induction false} SumCountsCons<T>(ks: seq<T>, x: T, xs: seq<T>)
    requires Distinct(ks)
    ensures SumCounts(ks, [x] + xs) == SumCounts(ks, xs) + (if x in ks then 1 else 0)
  {
    if ks != [] {
      assert ks == [ks[0]] + ks[1..];
      SumCountsCons(ks[1..], x, xs);
    }
  }

  /**
    Counting, value by value, every value that occurs gives back the length:
    the per-value counts of a list partition it.
  */
  lemma {:induction false} SumCountsPartition<T>(ks: seq<T>, xs: seq<T>)
    requires Distinct(ks)
    requires forall x :: x in xs ==> x in ks
    ensures SumCounts(ks, xs) == |xs|
    decreases |xs|, |ks|
  {
    if xs == [] {
      if ks != [] {
        SumCountsPartition(ks[1..], xs);
      }
    } else {
      assert xs == [xs[0]] + xs[1..];
      SumCountsCons(ks, xs[0], xs[1..]);
      SumCountsPartition(ks, xs[1..]);
    }
  }
}
