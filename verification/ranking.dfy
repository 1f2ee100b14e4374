/**
 * The ranking of the report (scripts/parse.py): videos sorted by views, most viewed first.
 * Python's sort is stable, also with `reverse=True`, so videos with equal views keep the
 * order in which the scraped text lists them. The model is a stable insertion sort, and
 * `StableRankingUnique` shows that it is the only arrangement with those two properties.
 */
module Ranking {
  import opened Videos

  /** Views never increase along `s`. */
  predicate RankedByViews(s: seq<Video>) {
    forall a, c :: 0 <= a < c < |s| ==> s[a].views >= s[c].views
  }

  /** The videos of `s` that have exactly `k` views, in their order in `s`. */
  function WithViews(s: seq<Video>, k: int): (r: seq<Video>)
    ensures |r| <= |s|
  {
    if s == [] then []
    else if s[0].views == k then [s[0]] + WithViews(s[1..], k)
    else WithViews(s[1..], k)
  }

  /**
   * Puts `v` in front of the first video of `r` that has no more views than `v`, so `v`
   * precedes the videos with as many views as it has.
   */
  function Insert(v: Video, r: seq<Video>): (q: seq<Video>)
    ensures |q| == |r| + 1
    ensures q[0] == v || (r != [] && q[0] == r[0])
    ensures RankedByViews(r) ==> RankedByViews(q)
  {
    if r == [] || v.views >= r[0].views then [v] + r
    else [r[0]] + Insert(v, r[1..])
  }

  /** `videos.sort(key=views, reverse=True)`: the same videos, most viewed first. */
  function RankByViews(s: seq<Video>): (r: seq<Video>)
    ensures |r| == |s|
    ensures RankedByViews(r)
  {
    if s == [] then [] else Insert(s[0], RankByViews(s[1..]))
  }

  /** Inserting adds `v` and loses nothing. */
  lemma {:induction false} InsertPermutes(v: Video, r: seq<Video>)
    ensures multiset(Insert(v, r)) == multiset(r) + multiset{v}
    decreases |r|
  {
    if r != [] && v.views < r[0].views {
      InsertPermutes(v, r[1..]);
      SplitHead(r);
    }
  }

  /** A non-empty sequence holds its first element and the rest. */
  lemma SplitHead(s: seq<Video>)
    requires s != []
    ensures multiset(s) == multiset{s[0]} + multiset(s[1..])
  {
    assert s == [s[0]] + s[1..];
  }

  /** The ranking is a permutation of the videos it ranks. */
  lemma {:induction false} RankingPermutes(s: seq<Video>)
    ensures multiset(RankByViews(s)) == multiset(s)
    decreases |s|
  {
    if s != [] {
      var rest := RankByViews(s[1..]);
      assert RankByViews(s) == Insert(s[0], rest);
      RankingPermutes(s[1..]);
      InsertPermutes(s[0], rest);
      SplitHead(s);
    }
  }

  /** Inserting `v` adds it in front of the videos with as many views and moves nothing else. */
  lemma {:induction false} InsertWithViews(v: Video, r: seq<Video>, k: int)
    ensures WithViews(Insert(v, r), k) == if v.views == k then [v] + WithViews(r, k) else WithViews(r, k)
    decreases |r|
  {
    var q := Insert(v, r);
    if r == [] || v.views >= r[0].views {
      assert q[0] == v && q[1..] == r;
    } else {
      assert q[0] == r[0] && q[1..] == Insert(v, r[1..]);
      InsertWithViews(v, r[1..], k);
    }
  }

  /** The ranking is stable: videos with equal views keep their relative order. */
  lemma {:induction false} RankingIsStable(s: seq<Video>, k: int)
    ensures WithViews(RankByViews(s), k) == WithViews(s, k)
    decreases |s|
  {
    if s != [] {
      RankingIsStable(s[1..], k);
      InsertWithViews(s[0], RankByViews(s[1..]), k);
    }
  }

  /** A video with `k` views occurs in `s` when the videos of `s` with `k` views are not none. */
  lemma {:induction false} WithViewsOccurs(s: seq<Video>, k: int)
    requires WithViews(s, k) != []
    ensures exists a :: 0 <= a < |s| && s[a].views == k
    decreases |s|
  {
    if s[0].views != k {
      WithViewsOccurs(s[1..], k);
      var a :| 0 <= a < |s[1..]| && s[1..][a].views == k;
      assert s[a + 1].views == k;
    }
  }

  /** The first video of `s` heads the videos of `s` with its view count. */
  lemma HeadCounted(s: seq<Video>)
    requires s != []
    ensures WithViews(s, s[0].views) == [s[0]] + WithViews(s[1..], s[0].views)
  {
  }

  /**
   * Two arrangements ranked by views in which the videos of each view count come in the same
   * order are the same sequence.
   */
  lemma {:induction false} StableRankingUnique(a: seq<Video>, b: seq<Video>)
    requires RankedByViews(a) && RankedByViews(b)
    requires forall k :: WithViews(a, k) == WithViews(b, k)
    ensures a == b
    decreases |a|
  {
    if a != [] {
      HeadCounted(a);
    }
    if b != [] {
      HeadCounted(b);
    }
    if a != [] && b != [] {
      var m := a[0].views;
      WithViewsOccurs(b, m);
      var n := b[0].views;
      WithViewsOccurs(a, n);
      assert m == n;
      var wa, wb := WithViews(a, m), WithViews(b, m);
      assert wa == wb;
      assert a[0] == wa[0] == wb[0] == b[0];
      assert WithViews(a[1..], m) == wa[1..] == wb[1..] == WithViews(b[1..], m);
      forall k
        ensures WithViews(a[1..], k) == WithViews(b[1..], k)
      {
        if k != m {
          assert WithViews(a, k) == WithViews(a[1..], k);
          assert WithViews(b, k) == WithViews(b[1..], k);
        }
      }
      StableRankingUnique(a[1..], b[1..]);
      assert a == [a[0]] + a[1..];
      assert b == [b[0]] + b[1..];
    }
  }

  /**
   * `RankByViews(s)` is the one arrangement of `s` that is ranked by views and keeps the
   * order of the videos of each view count.
   */
  lemma RankingIsTheStableOne(s: seq<Video>, r: seq<Video>)
    requires RankedByViews(r)
    requires forall k :: WithViews(r, k) == WithViews(s, k)
    ensures r == RankByViews(s)
  {
    forall k
      ensures WithViews(r, k) == WithViews(RankByViews(s), k)
    {
      RankingIsStable(s, k);
    }
    StableRankingUnique(r, RankByViews(s));
  }
}
