/**
 Ranking scored candidates the way both matchers do: Python's stable
 `list.sort(key=score, reverse=True)` followed by the slice `[:limit]`.
 A stable descending sort keeps candidates with equal scores in their
 input order.
 */
module Ranking {

  /** A candidate together with the score it is ranked by. */
  datatype Scored<T> = Scored(item: T, score: real)

  /** Scores never increase along the sequence. */
  predicate SortedDesc<T>(s: seq<Scored<T>>) {
    forall i, j :: 0 <= i < j < |s| ==> s[i].score >= s[j].score
  }

  /** The candidates scoring exactly `v`, in their order in `s`. */
  function WithScore<T>(s: seq<Scored<T>>, v: real): (r: seq<Scored<T>>)
    ensures |r| <= |s|
    ensures forall k :: 0 <= k < |r| ==> r[k].score == v
  {
    if s == [] then []
    else (if s[0].score == v then [s[0]] else []) + WithScore(s[1..], v)
  }

  lemma {:induction false} WithScoreAppend<T>(a: seq<Scored<T>>, b: seq<Scored<T>>, v: real)
    ensures WithScore(a + b, v) == WithScore(a, v) + WithScore(b, v)
    decreases |a|
  {
    if a == [] {
      assert a + b == b;
    } else {
      assert (a + b)[0] == a[0] && (a + b)[1..] == a[1..] + b;
      WithScoreAppend(a[1..], b, v);
      var h := if a[0].score == v then [a[0]] else [];
      assert WithScore(a + b, v) == h + WithScore(a[1..] + b, v);
      assert WithScore(a, v) == h + WithScore(a[1..], v);
      assert h + (WithScore(a[1..], v) + WithScore(b, v)) == (h + WithScore(a[1..], v)) + WithScore(b, v);
    }
  }

  /**
   Inserts `x` in front of the first candidate that does not score higher,
   so that it follows every higher score and precedes every equal one.
   */
  function Insert<T>(x: Scored<T>, s: seq<Scored<T>>): (r: seq<Scored<T>>)
    ensures |r| == |s| + 1
    ensures multiset(r) == multiset(s) + multiset{x}
  {
    if s == [] || s[0].score <= x.score then
      [x] + s
    else
      assert s == [s[0]] + s[1..];
      [s[0]] + Insert(x, s[1..])
  }

  /** Inserting into a sorted sequence keeps it sorted. */
  lemma {:induction false} InsertSorted<T>(x: Scored<T>, s: seq<Scored<T>>)
    requires SortedDesc(s)
    ensures SortedDesc(Insert(x, s))
    decreases |s|
  {
    if s != [] && s[0].score > x.score {
      var rest := Insert(x, s[1..]);
      InsertSorted(x, s[1..]);
      forall k | 0 <= k < |rest| ensures s[0].score >= rest[k].score {
        assert rest[k] in multiset(rest);
        if rest[k] != x {
          assert rest[k] in multiset(s[1..]);
          var j :| 0 <= j < |s[1..]| && s[1..][j] == rest[k];
          assert s[j + 1] == rest[k];
        }
      }
      assert Insert(x, s) == [s[0]] + rest;
    }
  }

  /** Python's stable descending sort by score, as insertion of each candidate into the sorted rest. */
  function SortDesc<T>(s: seq<Scored<T>>): (r: seq<Scored<T>>)
    ensures |r| == |s|
    ensures SortedDesc(r)
    ensures multiset(r) == multiset(s)
  {
    if s == [] then []
    else
      assert s == [s[0]] + s[1..];
      InsertSorted(s[0], SortDesc(s[1..]));
      Insert(s[0], SortDesc(s[1..]))
  }

  /** Inserting `x` adds it in front of the candidates of its own score and leaves other scores alone. */
  lemma {:induction false} InsertWithScore<T>(x: Scored<T>, s: seq<Scored<T>>, v: real)
    ensures WithScore(Insert(x, s), v) == if x.score == v then [x] + WithScore(s, v) else WithScore(s, v)
    decreases |s|
  {
    if s == [] || s[0].score <= x.score {
      assert ([x] + s)[1..] == s;
      if x.score == v && s != [] && s[0].score == v {
      }
    } else {
      var rest := Insert(x, s[1..]);
      assert ([s[0]] + rest)[1..] == rest;
      InsertWithScore(x, s[1..], v);
    }
  }

  /** Stability: among the candidates of any one score, the sort keeps the input order. */
  lemma {:induction false} SortStable<T>(s: seq<Scored<T>>, v: real)
    ensures WithScore(SortDesc(s), v) == WithScore(s, v)
    decreases |s|
  {
    if s != [] {
      SortStable(s[1..], v);
      InsertWithScore(s[0], SortDesc(s[1..]), v);
    }
  }

  /** The highest score of a non-empty sorted sequence is its first one. */
  lemma FirstIsBest<T>(r: seq<Scored<T>>, k: int)
    requires SortedDesc(r) && 0 <= k < |r|
    ensures r[0].score >= r[k].score
  {
    if k > 0 {
      assert r[0].score >= r[k].score;
    }
  }

  /** A score occurs in `s` exactly when its filter is non-empty. */
  lemma {:induction false} WithScoreEmpty<T>(s: seq<Scored<T>>, v: real)
    ensures WithScore(s, v) == [] <==> forall k :: 0 <= k < |s| ==> s[k].score != v
    decreases |s|
  {
    if s != [] {
      WithScoreEmpty(s[1..], v);
      assert forall k :: 1 <= k < |s| ==> s[k] == s[1..][k - 1];
      if s[0].score == v {
        assert WithScore(s, v)[0] == s[0];
      }
    }
  }

  /** A sequence in which no score occurs is empty. */
  lemma NothingScoredIsEmpty<T>(s: seq<Scored<T>>)
    ensures (forall v :: WithScore(s, v) == []) ==> s == []
  {
    if s != [] {
      assert WithScore(s, s[0].score)[0] == s[0];
    }
  }

  /** Dropping the first candidate drops the head of its score's filter and nothing else. */
  lemma WithScoreTail<T>(s: seq<Scored<T>>, v: real)
    requires s != []
    ensures s[0].score == v ==> WithScore(s, v) == [s[0]] + WithScore(s[1..], v)
    ensures s[0].score != v ==> WithScore(s, v) == WithScore(s[1..], v)
  {
  }

  /**
   The sort is the only stable descending order: any sorted sequence that
   has the same candidates of every score, in the same order, as `s` is
   the result of sorting `s`.
   */
  lemma {:induction false} SortUnique<T>(s: seq<Scored<T>>, r: seq<Scored<T>>)
    requires SortedDesc(r)
    requires forall v :: WithScore(r, v) == WithScore(s, v)
    ensures r == SortDesc(s)
    decreases |r|
  {
    var t := SortDesc(s);
    forall v ensures WithScore(t, v) == WithScore(r, v) {
      SortStable(s, v);
    }
    SortedSameFilters(r, t);
  }

  /** Two sorted non-empty sequences with equal filters for every score start with the same score. */
  lemma SameTopScore<T>(r: seq<Scored<T>>, t: seq<Scored<T>>)
    requires SortedDesc(r) && SortedDesc(t) && r != []
    requires forall v :: WithScore(r, v) == WithScore(t, v)
    ensures t != [] && t[0].score == r[0].score
  {
    WithScoreEmpty(r, r[0].score);
    assert WithScore(t, r[0].score) != [];
    WithScoreEmpty(t, r[0].score);
    var k :| 0 <= k < |t| && t[k].score == r[0].score;
    FirstIsBest(t, k);
    WithScoreEmpty(r, t[0].score);
    assert WithScore(r, t[0].score) != [];
    var j :| 0 <= j < |r| && r[j].score == t[0].score;
    FirstIsBest(r, j);
  }

  /** Equal filters and equal first scores give equal heads and equal filters of the tails. */
  lemma SameHeadSameTails<T>(r: seq<Scored<T>>, t: seq<Scored<T>>)
    requires r != [] && t != [] && r[0].score == t[0].score
    requires forall v :: WithScore(r, v) == WithScore(t, v)
    ensures r[0] == t[0]
    ensures forall v :: WithScore(r[1..], v) == WithScore(t[1..], v)
  {
    var m := r[0].score;
    WithScoreTail(r, m);
    WithScoreTail(t, m);
    assert r[0] == WithScore(r, m)[0] == WithScore(t, m)[0] == t[0];
    forall v ensures WithScore(r[1..], v) == WithScore(t[1..], v) {
      WithScoreTail(r, v);
      WithScoreTail(t, v);
      if v == m {
        assert WithScore(r, v)[1..] == WithScore(r[1..], v);
        assert WithScore(t, v)[1..] == WithScore(t[1..], v);
      }
    }
  }

  /** Two sorted sequences with equal filters for every score are equal. */
  lemma {:induction false} SortedSameFilters<T>(r: seq<Scored<T>>, t: seq<Scored<T>>)
    requires SortedDesc(r) && SortedDesc(t)
    requires forall v :: WithScore(r, v) == WithScore(t, v)
    ensures r == t
    decreases |r|
  {
    if r == [] {
      NothingScoredIsEmpty(t);
    } else {
      SameTopScore(r, t);
      SameHeadSameTails(r, t);
      SortedSameFilters(r[1..], t[1..]);
      assert r == [r[0]] + r[1..];
      assert t == [t[0]] + t[1..];
    }
  }

  /** The length of Python's slice `s[:limit]` of a sequence of length `n`, for any integer `limit`. */
  function SliceLen(n: nat, limit: int): (k: nat)
    ensures k <= n
    ensures 0 <= limit ==> k == if limit < n then limit else n
    ensures limit < 0 ==> k == if n + limit > 0 then n + limit else 0
  {
    if limit >= 0 then (if limit < n then limit else n)
    else if n + limit > 0 then n + limit
    else 0
  }

  /** Python's `s[:limit]`: a negative limit counts back from the end. */
  function PrefixSlice<T>(s: seq<T>, limit: int): (r: seq<T>)
    ensures |r| == SliceLen(|s|, limit)
    ensures r <= s
  {
    s[..SliceLen(|s|, limit)]
  }

  /** The elements of `s` that satisfy `p`, in their order in `s`. */
  function Filter<T>(p: T -> bool, s: seq<T>): (r: seq<T>)
    ensures |r| <= |s|
    ensures forall k :: 0 <= k < |r| ==> p(r[k]) && r[k] in s
    ensures forall x :: x in s && p(x) ==> x in r
    ensures (forall k :: 0 <= k < |s| ==> p(s[k])) ==> r == s
  {
    if s == [] then []
    else
      var init, last := s[..|s| - 1], s[|s| - 1];
      assert s == init + [last];
      Filter(p, init) + (if p(last) then [last] else [])
  }

  /** `f` of each element of `s` that `p` keeps, in order: the filter followed by a map. */
  function FilterMap<T, U>(p: T -> bool, f: T -> U, s: seq<T>): (r: seq<U>)
    ensures |r| == |Filter(p, s)|
    ensures forall k :: 0 <= k < |r| ==> r[k] == f(Filter(p, s)[k])
    ensures forall x :: x in s && p(x) ==> f(x) in r
  {
    if s == [] then []
    else
      var init, last := s[..|s| - 1], s[|s| - 1];
      assert s == init + [last];
      FilterMap(p, f, init) + (if p(last) then [f(last)] else [])
  }

  /** Extending the input by one element extends the result by that element's image, when `p` keeps it. */
  lemma FilterMapSnoc<T, U>(p: T -> bool, f: T -> U, s: seq<T>, x: T)
    ensures FilterMap(p, f, s + [x]) == FilterMap(p, f, s) + (if p(x) then [f(x)] else [])
  {
    assert (s + [x])[..|s + [x]| - 1] == s;
  }

  /** Filtering distributes over concatenation, so the filter keeps the relative order of what it keeps. */
  lemma {:induction false} FilterAppend<T>(p: T -> bool, a: seq<T>, b: seq<T>)
    ensures Filter(p, a + b) == Filter(p, a) + Filter(p, b)
    decreases |b|
  {
    if b == [] {
      assert a + b == a;
    } else {
      var init, last := b[..|b| - 1], b[|b| - 1];
      assert a + b == (a + init) + [last];
      assert (a + b)[..|a + b| - 1] == a + init;
      FilterAppend(p, a, init);
    }
  }

  /** The filter of a prefix is a prefix of the filter. */
  lemma WithScorePrefix<T>(s: seq<Scored<T>>, n: nat, v: real)
    requires n <= |s|
    ensures WithScore(s[..n], v) <= WithScore(s, v)
  {
    assert s == s[..n] + s[n..];
    WithScoreAppend(s[..n], s[n..], v);
  }

  /** The best `limit` candidates (in Python's slice sense of `limit`), best first. */
  function TopN<T>(s: seq<Scored<T>>, limit: int): (r: seq<Scored<T>>)
    ensures |r| == SliceLen(|s|, limit)
    ensures SortedDesc(r)
    ensures multiset(r) <= multiset(s)
    ensures forall k :: 0 <= k < |r| ==> r[k] in s
  {
    var sorted := SortDesc(s);
    var n := SliceLen(|s|, limit);
    PrefixOfPermutation(s, sorted, n);
    sorted[..n]
  }

  /** A prefix of a permutation of `s` draws its elements from `s`. */
  lemma PrefixOfPermutation<T>(s: seq<T>, t: seq<T>, n: nat)
    requires multiset(t) == multiset(s) && n <= |t|
    ensures multiset(t[..n]) <= multiset(s)
    ensures forall k :: 0 <= k < n ==> t[..n][k] in s
  {
    assert t == t[..n] + t[n..];
    forall k | 0 <= k < n ensures t[..n][k] in s {
      assert t[k] in multiset(t);
    }
  }

  /** In a sorted sequence, nothing after position `n` scores higher than anything before it. */
  lemma SortedSplit<T>(t: seq<Scored<T>>, n: nat)
    requires SortedDesc(t) && n <= |t|
    ensures forall x, k :: x in multiset(t[n..]) && 0 <= k < n ==> x.score <= t[k].score
  {
    forall x: Scored<T>, k | x in multiset(t[n..]) && 0 <= k < n ensures x.score <= t[k].score {
      var j :| 0 <= j < |t[n..]| && t[n..][j] == x;
      assert t[n + j] == x;
    }
  }

  /** Taking away one part of a sum leaves the other. */
  lemma SumMinusPart<X>(a: multiset<X>, b: multiset<X>)
    ensures (a + b) - a == b
  {
    assert forall x :: ((a + b) - a)[x] == b[x];
  }

  /** Removing a prefix of a permutation of `s` from `s` leaves the rest of the permutation. */
  lemma PrefixComplement<X>(s: seq<X>, t: seq<X>, n: nat)
    requires multiset(t) == multiset(s) && n <= |t|
    ensures multiset(s) - multiset(t[..n]) == multiset(t[n..])
  {
    assert t == t[..n] + t[n..];
    SumMinusPart(multiset(t[..n]), multiset(t[n..]));
  }

  /** Every candidate the top list leaves out scores no higher than any candidate it keeps. */
  lemma TopNOmitted<T>(s: seq<Scored<T>>, limit: int)
    ensures var r := TopN(s, limit);
      forall x, k :: x in multiset(s) - multiset(r) && 0 <= k < |r| ==> x.score <= r[k].score
  {
    var sorted, n := SortDesc(s), SliceLen(|s|, limit);
    SortedSplit(sorted, n);
    PrefixComplement(s, sorted, n);
  }

  /** Candidates of equal score keep their input order in the top list, the kept ones being the first of their score. */
  lemma TopNStable<T>(s: seq<Scored<T>>, limit: int, v: real)
    ensures WithScore(TopN(s, limit), v) <= WithScore(s, v)
  {
    WithScorePrefix(SortDesc(s), SliceLen(|s|, limit), v);
    SortStable(s, v);
  }

  /** The choice the top list makes: nothing better is left out, and every score's kept candidates come first in input order. */
  lemma TopNChoice<T>(s: seq<Scored<T>>, limit: int)
    ensures var r := TopN(s, limit);
      forall x, k :: x in multiset(s) - multiset(r) && 0 <= k < |r| ==> x.score <= r[k].score
    ensures forall v :: WithScore(TopN(s, limit), v) <= WithScore(s, v)
  {
    TopNOmitted(s, limit);
    forall v ensures WithScore(TopN(s, limit), v) <= WithScore(s, v) {
      TopNStable(s, limit, v);
    }
  }

  /**
   The sort as the loop a program would run: insert each candidate, last
   to first, into the already sorted suffix.
   */
  method SortByScore<T>(s: seq<Scored<T>>) returns (r: seq<Scored<T>>)
    ensures SortedDesc(r)
    ensures multiset(r) == multiset(s)
    ensures forall v :: WithScore(r, v) == WithScore(s, v)
  {
    r := [];
    var i := |s|;
    while i > 0
      invariant 0 <= i <= |s|
      invariant r == SortDesc(s[i..])
    {
      i := i - 1;
      assert s[i..][1..] == s[i + 1..];
      r := Insert(s[i], r);
    }
    assert s[0..] == s;
    forall v ensures WithScore(r, v) == WithScore(s, v) {
      SortStable(s, v);
    }
  }
}
