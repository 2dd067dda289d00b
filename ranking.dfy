/**
 * The sort keys _movie_sort_key and _genre_sort_key, the sorted insertion that puts a
 * genre's movies in key order, the filter of movies the user has rated, and what a
 * recommendation is.
 */
module Ranking {
  import opened Text
  import opened Records
  import opened Catalog
  import opened Stats
  import opened Order

  /** The id _movie_sort_key uses for a name with no catalog record (10**12). */
  const MissingId: int := 1_000_000_000_000

  /**
   * _movie_sort_key: mean descending, count descending, lower-cased name, id; a movie
   * without statistics counts as mean 0 from 0 ratings.
   */
  function MovieSortKey(stats: map<string, MovieStat>, byName: map<string, Movie>, name: string): MovieKey {
    var st := if name in stats then stats[name] else MovieStat(0.0, 0);
    var id := if name in byName then byName[name].movieId else MissingId;
    MovieKey(RankKey(-st.avg, -(st.count as int), Lower(name)), id)
  }

  /**
   * _genre_sort_key: mean of movie means descending, total ratings descending, lower-cased
   * display spelling; a genre without statistics counts as 0 and 0.
   */
  function GenreSortKey(genreStats: map<string, GenreStat>, genreCase: map<string, string>, g: string): RankKey {
    var st := if g in genreStats then genreStats[g] else GenreStat(0.0, 0);
    RankKey(-st.avgOfMovieAvgs, -(st.totalRatings as int), Lower(if g in genreCase then genreCase[g] else g))
  }

  /** Over a well-formed catalog two different movies never share a sort key, so their order is fixed. */
  lemma MovieSortKeysDistinct(c: Catalog, stats: map<string, MovieStat>, a: string, b: string)
    requires WellFormed(c)
    requires a in c.byName && b in c.byName && a != b
    ensures MovieSortKey(stats, c.byName, a).rank.name != MovieSortKey(stats, c.byName, b).rank.name
  {
    KeysNotSameMovie(c, a, b);
    assert Lower(a) != Lower(b);
    MovieSortKeyName(stats, c.byName, a);
    MovieSortKeyName(stats, c.byName, b);
  }

  /** The name component of a movie's sort key is its lower-cased name. */
  lemma MovieSortKeyName(stats: map<string, MovieStat>, byName: map<string, Movie>, name: string)
    ensures MovieSortKey(stats, byName, name).rank.name == Lower(name)
  {
  }

  /** Over a well-formed catalog two different genre keys never share a sort key. */
  lemma GenreSortKeysDistinct(c: Catalog, genreStats: map<string, GenreStat>, g1: string, g2: string)
    requires WellFormed(c)
    requires g1 in c.genreCase && g2 in c.genreCase && g1 != g2
    ensures GenreSortKey(genreStats, c.genreCase, g1) != GenreSortKey(genreStats, c.genreCase, g2)
  {
    assert DisplaysGenre(c.genreCase[g1], g1) && DisplaysGenre(c.genreCase[g2], g2);
  }

  /** The key _movie_sort_key gives each name, as a function of the name alone. */
  function SortKeyOf(stats: map<string, MovieStat>, byName: map<string, Movie>): string -> MovieKey {
    name => MovieSortKey(stats, byName, name)
  }

  // ---------------------------------------------------------------------------
  // Key order
  // ---------------------------------------------------------------------------

  /** No name comes after a name with a smaller key (what sorted(..., key=...) leaves). */
  predicate Ordered(key: string -> MovieKey, xs: seq<string>) {
    forall i, j :: 0 <= i < j < |xs| ==> !MovieKeyLt(key(xs[j]), key(xs[i]))
  }

  /** No name occurs twice. */
  predicate Distinct(xs: seq<string>) {
    forall i, j :: 0 <= i < j < |xs| ==> xs[i] != xs[j]
  }

  /** Put x in front of the first name whose key is larger, as a stable sort places a later name. */
  function InsertByKey(key: string -> MovieKey, xs: seq<string>, x: string): (r: seq<string>)
    requires Ordered(key, xs)
    ensures Ordered(key, r)
    ensures multiset(r) == multiset(xs) + multiset{x}
    ensures Distinct(xs) && x !in xs ==> Distinct(r)
    decreases |xs|
  {
    if xs == [] then [x]
    else if MovieKeyLt(key(x), key(xs[0])) then
      InsertBeforeOrdered(key, xs, x);
      [x] + xs
    else
      OrderedTail(key, xs);
      var tail := InsertByKey(key, xs[1..], x);
      assert xs == [xs[0]] + xs[1..];
      InsertAfterOrdered(key, xs[0], xs[1..], x, tail);
      ConsDistinct(xs[0], xs[1..], x, tail);
      [xs[0]] + tail
  }

  /** Dropping the first name keeps a list ordered. */
  lemma OrderedTail(key: string -> MovieKey, xs: seq<string>)
    requires Ordered(key, xs) && xs != []
    ensures Ordered(key, xs[1..])
  {
    var tail := xs[1..];
    forall i, j | 0 <= i < j < |tail| ensures !MovieKeyLt(key(tail[j]), key(tail[i])) {
      assert tail[i] == xs[i + 1] && tail[j] == xs[j + 1];
    }
  }

  /** A name whose key is below every key of an ordered list may go in front of it. */
  lemma ConsOrdered(key: string -> MovieKey, x: string, xs: seq<string>)
    requires Ordered(key, xs)
    requires forall k :: 0 <= k < |xs| ==> !MovieKeyLt(key(xs[k]), key(x))
    ensures Ordered(key, [x] + xs)
  {
    var r := [x] + xs;
    forall i, j | 0 <= i < j < |r| ensures !MovieKeyLt(key(r[j]), key(r[i])) {
      assert r[j] == xs[j - 1];
      if i > 0 {
        assert r[i] == xs[i - 1];
      }
    }
  }

  /** A name with a smaller key than the first of an ordered list may go in front of it. */
  lemma InsertBeforeOrdered(key: string -> MovieKey, xs: seq<string>, x: string)
    requires Ordered(key, xs) && xs != []
    requires MovieKeyLt(key(x), key(xs[0]))
    ensures Ordered(key, [x] + xs)
  {
    forall k | 0 <= k < |xs| ensures !MovieKeyLt(key(xs[k]), key(x)) {
      MovieKeyLtIrreflexive(key(xs[0]));
      if k > 0 {
        assert !MovieKeyLt(key(xs[k]), key(xs[0]));
      }
      if MovieKeyLt(key(xs[k]), key(x)) {
        MovieKeyLtTransitive(key(xs[k]), key(x), key(xs[0]));
      }
    }
    ConsOrdered(key, x, xs);
  }

  /** A name that x does not precede, in front of an ordered list with x inserted. */
  lemma InsertAfterOrdered(key: string -> MovieKey, y: string, ys: seq<string>, x: string, tail: seq<string>)
    requires Ordered(key, [y] + ys) && Ordered(key, tail)
    requires !MovieKeyLt(key(x), key(y))
    requires multiset(tail) == multiset(ys) + multiset{x}
    ensures Ordered(key, [y] + tail)
  {
    forall k | 0 <= k < |tail| ensures !MovieKeyLt(key(tail[k]), key(y)) {
      assert tail[k] in multiset(tail);
      if tail[k] != x {
        assert tail[k] in multiset(ys);
        var m :| 0 <= m < |ys| && ys[m] == tail[k];
        assert ([y] + ys)[0] == y && ([y] + ys)[m + 1] == tail[k];
      }
    }
    ConsOrdered(key, y, tail);
  }

  /** A name in front of a list that holds neither it nor a repetition. */
  lemma ConsDistinct(y: string, ys: seq<string>, x: string, tail: seq<string>)
    requires multiset(tail) == multiset(ys) + multiset{x}
    ensures (Distinct([y] + ys) && x != y && x !in ys && (Distinct(ys) ==> Distinct(tail))) ==> Distinct([y] + tail)
  {
    if Distinct([y] + ys) && x != y && x !in ys && (Distinct(ys) ==> Distinct(tail)) {
      ConsDistinctCase(y, ys, x, tail);
    }
  }

  lemma ConsDistinctCase(y: string, ys: seq<string>, x: string, tail: seq<string>)
    requires Distinct([y] + ys) && x != y && x !in ys
    requires (Distinct(ys) ==> Distinct(tail)) && multiset(tail) == multiset(ys) + multiset{x}
    ensures Distinct([y] + tail)
  {
    assert ([y] + ys)[0] == y;
    assert Distinct(ys) by {
      forall i, j | 0 <= i < j < |ys| ensures ys[i] != ys[j] {
        assert ([y] + ys)[i + 1] == ys[i] && ([y] + ys)[j + 1] == ys[j];
      }
    }
    forall k | 0 <= k < |ys| ensures ys[k] != y {
      assert ([y] + ys)[k + 1] == ys[k];
    }
    assert y !in multiset(tail);
    var r := [y] + tail;
    forall i, j | 0 <= i < j < |r| ensures r[i] != r[j] {
      assert r[j] == tail[j - 1] && r[j] in multiset(tail);
      if i > 0 {
        assert r[i] == tail[i - 1];
      }
    }
  }

  /**
   * sorted(movies, key=...) on a set of names: every name once, in key order. The set's
   * iteration order is left open; each name goes in after those whose key it does not precede.
   */
  method SortByKey(key: string -> MovieKey, movies: set<string>) returns (sorted: seq<string>)
    ensures Ordered(key, sorted) && Distinct(sorted)
    ensures forall m :: m in sorted <==> m in movies
  {
    sorted := [];
    var todo := movies;
    while todo != {}
      invariant todo <= movies
      invariant Ordered(key, sorted) && Distinct(sorted)
      invariant forall m :: m in sorted <==> m in movies && m !in todo
      decreases |todo|
    {
      var m :| m in todo;
      sorted := InsertByKey(key, sorted, m);
      assert forall y :: y in sorted <==> y in multiset(sorted);
      todo := todo - {m};
    }
  }

  /** [m for m in candidates if m not in rated]: the names not rated, in their order. */
  function Unseen(xs: seq<string>, rated: set<string>): (r: seq<string>)
    ensures forall m :: m in r <==> m in xs && m !in rated
    decreases |xs|
  {
    if xs == [] then []
    else if xs[0] in rated then Unseen(xs[1..], rated)
    else [xs[0]] + Unseen(xs[1..], rated)
  }

  /** The filter keeps the order of what it keeps. */
  lemma {:induction false} UnseenOrdered(key: string -> MovieKey, xs: seq<string>, rated: set<string>)
    requires Ordered(key, xs)
    ensures Ordered(key, Unseen(xs, rated))
    decreases |xs|
  {
    if xs != [] {
      var tail := xs[1..];
      OrderedTail(key, xs);
      UnseenOrdered(key, tail, rated);
      if xs[0] !in rated {
        var u := Unseen(tail, rated);
        assert Unseen(xs, rated) == [xs[0]] + u;
        forall k | 0 <= k < |u| ensures !MovieKeyLt(key(u[k]), key(xs[0])) {
          assert u[k] in tail;
          var m :| 0 <= m < |tail| && tail[m] == u[k];
          assert xs[m + 1] == u[k];
        }
        ConsOrdered(key, xs[0], u);
      }
    }
  }

  /** The filter drops names, never repeats them. */
  lemma {:induction false} UnseenDistinct(xs: seq<string>, rated: set<string>)
    requires Distinct(xs)
    ensures Distinct(Unseen(xs, rated))
    decreases |xs|
  {
    if xs != [] {
      var tail := xs[1..];
      assert forall k :: 0 <= k < |tail| ==> tail[k] == xs[k + 1];
      UnseenDistinct(tail, rated);
      if xs[0] !in rated {
        var r := Unseen(xs, rated);
        var u := Unseen(tail, rated);
        assert r == [xs[0]] + u;
        assert xs[0] !in tail;
        forall i, j | 0 <= i < j < |r| ensures r[i] != r[j] {
          assert r[j] == u[j - 1] && r[j] in u;
          if i > 0 {
            assert r[i] == u[i - 1];
          }
        }
      }
    }
  }

  // ---------------------------------------------------------------------------
  // Recommendations
  // ---------------------------------------------------------------------------

  /**
   * What feature_recommend_movies selects from the genre's movies: at most three, each
   * in the genre and not rated by the user, no name twice, in key order, and no unrated
   * movie of the genre left out unless three were taken and none of them has a larger key.
   */
  ghost predicate IsRecommendation(recs: seq<string>, candidates: set<string>, rated: set<string>, key: string -> MovieKey) {
    && |recs| <= 3
    && (forall i :: 0 <= i < |recs| ==> recs[i] in candidates && recs[i] !in rated)
    && Distinct(recs)
    && Ordered(key, recs)
    && forall m :: m in candidates && m !in rated && m !in recs ==>
         |recs| == 3 && forall i :: 0 <= i < |recs| ==> !MovieKeyLt(key(m), key(recs[i]))
  }

  /** A prefix of an ordered, repetition-free list is ordered and repetition-free. */
  lemma PrefixOrderedDistinct(key: string -> MovieKey, u: seq<string>, n: nat)
    requires Ordered(key, u) && Distinct(u) && n <= |u|
    ensures Ordered(key, u[..n]) && Distinct(u[..n])
  {
    var p := u[..n];
    assert forall k :: 0 <= k < n ==> p[k] == u[k];
  }

  /**
   * The first three names of an ordered, repetition-free listing of the genre's movies,
   * with the rated ones filtered out, are a recommendation.
   */
  lemma FirstThreeUnseen(key: string -> MovieKey, sorted: seq<string>, candidates: set<string>, rated: set<string>)
    requires Ordered(key, sorted) && Distinct(sorted)
    requires forall m :: m in sorted <==> m in candidates
    ensures var u := Unseen(sorted, rated);
      IsRecommendation(u[..if |u| < 3 then |u| else 3], candidates, rated, key)
  {
    var u := Unseen(sorted, rated);
    UnseenOrdered(key, sorted, rated);
    UnseenDistinct(sorted, rated);
    var n := if |u| < 3 then |u| else 3;
    var recs := u[..n];
    PrefixOrderedDistinct(key, u, n);
    assert forall i :: 0 <= i < n ==> recs[i] == u[i] && u[i] in u;
    forall m | m in candidates && m !in rated && m !in recs
      ensures |recs| == 3 && forall i :: 0 <= i < |recs| ==> !MovieKeyLt(key(m), key(recs[i]))
    {
      assert m in u;
      var k :| 0 <= k < |u| && u[k] == m;
    }
  }
}
