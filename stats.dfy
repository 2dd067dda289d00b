/**
 * What compute_movie_stats, compute_genre_stats and the top-genre computation
 * produce, stated as functions of the indexes they read, with the bounds those
 * results keep.
 */
module Stats {
  import opened Text
  import opened Records
  import opened Catalog
  import opened Order

  // ---------------------------------------------------------------------------
  // Sums
  // ---------------------------------------------------------------------------

  /** sum(r for _, r in ratings): the ratings of a movie list added up. */
  function SumRatings(rs: seq<(int, real)>): real
    decreases |rs|
  {
    if rs == [] then 0.0 else SumRatings(rs[..|rs| - 1]) + rs[|rs| - 1].1
  }

  /** A sum of n ratings in [0, 5] lies in [0, 5n]. */
  lemma {:induction false} SumRatingsBounds(rs: seq<(int, real)>)
    requires forall i :: 0 <= i < |rs| ==> 0.0 <= rs[i].1 <= 5.0
    ensures 0.0 <= SumRatings(rs) <= |rs| as real * 5.0
    decreases |rs|
  {
    if rs != [] {
      SumRatingsBounds(rs[..|rs| - 1]);
    }
  }

  /** The weights of the keys in s added up (the order does not matter for exact reals). */
  ghost function SetSum<K>(s: set<K>, w: map<K, real>): real
    requires s <= w.Keys
    decreases |s|
  {
    if s == {} then 0.0 else var k :| k in s; w[k] + SetSum(s - {k}, w)
  }

  /** Whichever key SetSum picks first, taking any key out first gives the same sum. */
  lemma {:induction false} SetSumRemove<K>(s: set<K>, w: map<K, real>, x: K)
    requires s <= w.Keys && x in s
    ensures SetSum(s, w) == w[x] + SetSum(s - {x}, w)
    decreases |s|
  {
    var k :| k in s && SetSum(s, w) == w[k] + SetSum(s - {k}, w);
    if k != x {
      SetSumRemove(s - {k}, w, x);
      SetSumRemove(s - {x}, w, k);
      assert s - {k} - {x} == s - {x} - {k};
    }
  }

  /** Adding a key adds its weight. */
  lemma SetSumInsert<K>(s: set<K>, w: map<K, real>, x: K)
    requires s <= w.Keys && x in w && x !in s
    ensures SetSum(s + {x}, w) == SetSum(s, w) + w[x]
  {
    SetSumRemove(s + {x}, w, x);
    assert s + {x} - {x} == s;
  }

  /** A sum of n weights in [0, 5] lies in [0, 5n]. */
  lemma {:induction false} SetSumBounds<K>(s: set<K>, w: map<K, real>)
    requires s <= w.Keys
    requires forall k :: k in s ==> 0.0 <= w[k] <= 5.0
    ensures 0.0 <= SetSum(s, w) <= |s| as real * 5.0
    decreases |s|
  {
    if s != {} {
      var k :| k in s;
      var rest := s - {k};
      SetSumRemove(s, w, k);
      SetSumBounds(rest, w);
      assert |s| == |rest| + 1;
    }
  }

  /** The counts of the keys in s added up. */
  ghost function SetCount<K>(s: set<K>, w: map<K, nat>): nat
    requires s <= w.Keys
    decreases |s|
  {
    if s == {} then 0 else var k :| k in s; w[k] + SetCount(s - {k}, w)
  }

  lemma {:induction false} SetCountRemove<K>(s: set<K>, w: map<K, nat>, x: K)
    requires s <= w.Keys && x in s
    ensures SetCount(s, w) == w[x] + SetCount(s - {x}, w)
    decreases |s|
  {
    var k :| k in s && SetCount(s, w) == w[k] + SetCount(s - {k}, w);
    if k != x {
      SetCountRemove(s - {k}, w, x);
      SetCountRemove(s - {x}, w, k);
      assert s - {k} - {x} == s - {x} - {k};
    }
  }

  lemma SetCountInsert<K>(s: set<K>, w: map<K, nat>, x: K)
    requires s <= w.Keys && x in w && x !in s
    ensures SetCount(s + {x}, w) == SetCount(s, w) + w[x]
  {
    SetCountRemove(s + {x}, w, x);
    assert s + {x} - {x} == s;
  }

  /** A sum of counts each at least 1 is at least the number of keys. */
  lemma {:induction false} SetCountAtLeastSize<K>(s: set<K>, w: map<K, nat>)
    requires s <= w.Keys
    requires forall k :: k in s ==> w[k] >= 1
    ensures SetCount(s, w) >= |s|
    decreases |s|
  {
    if s != {} {
      var k :| k in s;
      SetCountRemove(s, w, k);
      SetCountAtLeastSize(s - {k}, w);
    }
  }

  // ---------------------------------------------------------------------------
  // Movie statistics (compute_movie_stats)
  // ---------------------------------------------------------------------------

  datatype MovieStat = MovieStat(avg: real, count: nat)

  /** The entry of one movie: the mean of its list and the list's length. */
  function MovieStatOf(rs: seq<(int, real)>): MovieStat
    requires rs != []
  {
    MovieStat(SumRatings(rs) / |rs| as real, |rs|)
  }

  /** MOVIE_STATS after compute_movie_stats: an entry for every movie whose list is not empty. */
  function MovieStatsOf(byMovie: map<string, seq<(int, real)>>): map<string, MovieStat> {
    map m | m in byMovie && byMovie[m] != [] :: MovieStatOf(byMovie[m])
  }

  /** The movie statistics of the movies not in `todo`: what compute_movie_stats has filled so far. */
  function MovieStatsExcept(byMovie: map<string, seq<(int, real)>>, todo: set<string>): map<string, MovieStat> {
    map m | m in byMovie && m !in todo && byMovie[m] != [] :: MovieStatOf(byMovie[m])
  }

  /** Handling one more movie adds its entry exactly when its rating list is not empty. */
  lemma MovieStatsStep(byMovie: map<string, seq<(int, real)>>, todo: set<string>, m: string)
    requires m in byMovie && m in todo
    ensures byMovie[m] != [] ==> MovieStatsExcept(byMovie, todo - {m}) == MovieStatsExcept(byMovie, todo)[m := MovieStatOf(byMovie[m])]
    ensures byMovie[m] == [] ==> MovieStatsExcept(byMovie, todo - {m}) == MovieStatsExcept(byMovie, todo)
  {
  }

  /** With nothing left to handle, every movie has its entry. */
  lemma MovieStatsExceptNone(byMovie: map<string, seq<(int, real)>>)
    ensures MovieStatsExcept(byMovie, {}) == MovieStatsOf(byMovie)
  {
  }

  /** A sum of n terms between n * lo and n * hi, divided by n, lies between lo and hi. */
  lemma DivBounds(sum: real, n: real, lo: real, hi: real)
    requires n > 0.0 && n * lo <= sum <= n * hi
    ensures lo <= sum / n <= hi
  {
    var q := sum / n;
    assert q * n == sum;
    assert (q - lo) * n == sum - n * lo;
    assert (hi - q) * n == n * hi - sum;
  }

  /** A movie's mean of ratings in [0, 5] lies in [0, 5]. */
  lemma MeanBounds(rs: seq<(int, real)>)
    requires rs != []
    requires forall i :: 0 <= i < |rs| ==> 0.0 <= rs[i].1 <= 5.0
    ensures 0.0 <= MovieStatOf(rs).avg <= 5.0 && MovieStatOf(rs).count >= 1
  {
    SumRatingsBounds(rs);
    DivBounds(SumRatings(rs), |rs| as real, 0.0, 5.0);
  }

  /** The statistics of valid lists: one entry per rated movie, its mean in [0, 5], its count positive. */
  lemma MovieStatsBounds(byMovie: map<string, seq<(int, real)>>)
    requires forall m :: m in byMovie ==> forall i :: 0 <= i < |byMovie[m]| ==> 0.0 <= byMovie[m][i].1 <= 5.0
    ensures var stats := MovieStatsOf(byMovie);
      && (forall m :: m in stats <==> m in byMovie && byMovie[m] != [])
      && (forall m :: m in stats ==> 0.0 <= stats[m].avg <= 5.0 && stats[m].count == |byMovie[m]| >= 1)
  {
    forall m | m in byMovie && byMovie[m] != [] ensures 0.0 <= MovieStatOf(byMovie[m]).avg <= 5.0 {
      MeanBounds(byMovie[m]);
    }
  }

  // ---------------------------------------------------------------------------
  // Genre statistics (compute_genre_stats)
  // ---------------------------------------------------------------------------

  datatype GenreStat = GenreStat(avgOfMovieAvgs: real, totalRatings: nat)

  /** The movies of a genre that have a statistics entry with a positive count. */
  function RatedIn(movies: set<string>, stats: map<string, MovieStat>): set<string> {
    set m | m in movies && m in stats && stats[m].count > 0
  }

  function AvgOf(stats: map<string, MovieStat>): map<string, real> {
    map m | m in stats :: stats[m].avg
  }

  function CountOf(stats: map<string, MovieStat>): map<string, nat> {
    map m | m in stats :: stats[m].count
  }

  /** sum(avgs): a list of means added up. */
  function SumReals(xs: seq<real>): real
    decreases |xs|
  {
    if xs == [] then 0.0 else SumReals(xs[..|xs| - 1]) + xs[|xs| - 1]
  }

  /** Appending a term adds it to the sum. */
  lemma SumRealsAppend(xs: seq<real>, x: real)
    ensures SumReals(xs + [x]) == SumReals(xs) + x
  {
    assert (xs + [x])[..|xs|] == xs;
  }

  /** Visiting one more movie of a genre adds it to the rated ones exactly when it has a positive count. */
  lemma RatedInAdd(done: set<string>, stats: map<string, MovieStat>, m: string)
    requires m !in done
    ensures m in stats && stats[m].count > 0 ==> RatedIn(done + {m}, stats) == RatedIn(done, stats) + {m}
    ensures !(m in stats && stats[m].count > 0) ==> RatedIn(done + {m}, stats) == RatedIn(done, stats)
    ensures m !in RatedIn(done, stats)
  {
  }

  /** avgs and total are the means, and the sum of the counts, of the rated movies among `done`. */
  ghost predicate MeansSoFar(done: set<string>, stats: map<string, MovieStat>, avgs: seq<real>, total: nat) {
    && |avgs| == |RatedIn(done, stats)|
    && SumReals(avgs) == SetSum(RatedIn(done, stats), AvgOf(stats))
    && total == SetCount(RatedIn(done, stats), CountOf(stats))
  }

  /** Visiting movie m appends its mean and adds its count exactly when it has a positive count. */
  lemma MeansStep(done: set<string>, stats: map<string, MovieStat>, m: string, avgs: seq<real>, total: nat)
    requires m !in done && MeansSoFar(done, stats, avgs, total)
    ensures m in stats && stats[m].count > 0 ==> MeansSoFar(done + {m}, stats, avgs + [stats[m].avg], total + stats[m].count)
    ensures !(m in stats && stats[m].count > 0) ==> MeansSoFar(done + {m}, stats, avgs, total)
  {
    RatedInAdd(done, stats, m);
    if m in stats && stats[m].count > 0 {
      SetSumInsert(RatedIn(done, stats), AvgOf(stats), m);
      SetCountInsert(RatedIn(done, stats), CountOf(stats), m);
      SumRealsAppend(avgs, stats[m].avg);
    }
  }

  /** A genre's entry: the plain mean of its rated movies' means, and the sum of their counts. */
  ghost function GenreStatOf(movies: set<string>, stats: map<string, MovieStat>): GenreStat
    requires RatedIn(movies, stats) != {}
  {
    var rated := RatedIn(movies, stats);
    GenreStat(SetSum(rated, AvgOf(stats)) / |rated| as real, SetCount(rated, CountOf(stats)))
  }

  /** GENRE_STATS after compute_genre_stats: an entry for every genre with at least one rated movie. */
  ghost function GenreStatsOf(genres: map<string, set<string>>, stats: map<string, MovieStat>): map<string, GenreStat> {
    map g | g in genres && RatedIn(genres[g], stats) != {} :: GenreStatOf(genres[g], stats)
  }

  /** The genre statistics of the genres not in `todo`: what compute_genre_stats has filled so far. */
  ghost function GenreStatsExcept(genres: map<string, set<string>>, stats: map<string, MovieStat>, todo: set<string>): map<string, GenreStat> {
    map g | g in genres && g !in todo && RatedIn(genres[g], stats) != {} :: GenreStatOf(genres[g], stats)
  }

  /** The means gathered for a genre's movies give its entry, present exactly when one of them is rated. */
  lemma GenreStatOfMeans(movies: set<string>, stats: map<string, MovieStat>, avgs: seq<real>, total: nat)
    requires MeansSoFar(movies, stats, avgs, total)
    ensures avgs != [] <==> RatedIn(movies, stats) != {}
    ensures avgs != [] ==> GenreStat(SumReals(avgs) / |avgs| as real, total) == GenreStatOf(movies, stats)
  {
  }

  /** Handling one more genre adds its entry exactly when it has a rated movie. */
  lemma GenreStatsStep(genres: map<string, set<string>>, stats: map<string, MovieStat>, todo: set<string>, g: string)
    requires g in genres && g in todo
    ensures RatedIn(genres[g], stats) != {} ==>
      GenreStatsExcept(genres, stats, todo - {g}) == GenreStatsExcept(genres, stats, todo)[g := GenreStatOf(genres[g], stats)]
    ensures RatedIn(genres[g], stats) == {} ==>
      GenreStatsExcept(genres, stats, todo - {g}) == GenreStatsExcept(genres, stats, todo)
  {
  }

  /**
   * With movie means in [0, 5], a genre's mean of means is in [0, 5] and its total is at
   * least the number of its rated movies.
   */
  lemma GenreStatBounds(movies: set<string>, stats: map<string, MovieStat>)
    requires RatedIn(movies, stats) != {}
    requires forall m :: m in stats ==> 0.0 <= stats[m].avg <= 5.0
    ensures var st := GenreStatOf(movies, stats);
      0.0 <= st.avgOfMovieAvgs <= 5.0 && st.totalRatings >= |RatedIn(movies, stats)| >= 1
  {
    var rated := RatedIn(movies, stats);
    SetSumBounds(rated, AvgOf(stats));
    SetCountAtLeastSize(rated, CountOf(stats));
    DivBounds(SetSum(rated, AvgOf(stats)), |rated| as real, 0.0, 5.0);
  }

  /**
   * The genre mean weighs every movie the same whatever its number of ratings: a movie
   * with mean 5 from one rating and a movie with mean 1 from a hundred give 3, over 101 ratings.
   */
  lemma EqualWeightExample(a: string, b: string)
    requires a != b
    ensures var stats := map[a := MovieStat(5.0, 1), b := MovieStat(1.0, 100)];
      RatedIn({a, b}, stats) == {a, b} && GenreStatOf({a, b}, stats) == GenreStat(3.0, 101)
  {
    var stats := map[a := MovieStat(5.0, 1), b := MovieStat(1.0, 100)];
    assert RatedIn({a, b}, stats) == {a} + {b};
    SetSumInsert({a}, AvgOf(stats), b);
    SetSumInsert({}, AvgOf(stats), a);
    SetCountInsert({a}, CountOf(stats), b);
    SetCountInsert({}, CountOf(stats), a);
    assert {} + {a} == {a};
  }

  // ---------------------------------------------------------------------------
  // A user's top genre (_compute_user_top_genre_for)
  // ---------------------------------------------------------------------------

  /** The top-genre entry: the genre key, the user's mean rating in it and their number of ratings in it. */
  datatype TopGenre = TopGenre(genre: string, avg: real, count: nat)

  /** The movies among `rated` that are catalog records filed (genre_norm) under g. */
  function UserMoviesIn(rated: set<string>, byName: map<string, Movie>, g: string): set<string> {
    set m | m in rated && m in byName && byName[m].genreNorm == g
  }

  /** The genres of the catalog records among `rated`: the keys of agg. */
  function UserGenres(rated: set<string>, byName: map<string, Movie>): set<string> {
    set m | m in rated && m in byName :: byName[m].genreNorm
  }

  /** Visiting one more rated movie adds it to its record's genre, and to no other. */
  lemma UserMoviesInAdd(done: set<string>, byName: map<string, Movie>, m: string, g: string)
    ensures m in byName && byName[m].genreNorm == g ==> UserMoviesIn(done + {m}, byName, g) == UserMoviesIn(done, byName, g) + {m}
    ensures !(m in byName && byName[m].genreNorm == g) ==> UserMoviesIn(done + {m}, byName, g) == UserMoviesIn(done, byName, g)
  {
  }

  /** A genre none of the visited movies is filed under has no visited movies. */
  lemma UserMoviesInEmpty(done: set<string>, byName: map<string, Movie>, g: string)
    requires g !in UserGenres(done, byName)
    ensures UserMoviesIn(done, byName, g) == {}
  {
    assert forall m | m in UserMoviesIn(done, byName, g) :: byName[m].genreNorm in UserGenres(done, byName);
  }

  /** Visiting one more rated movie adds its record's genre, if it has a record. */
  lemma UserGenresAdd(done: set<string>, byName: map<string, Movie>, m: string)
    ensures m in byName ==> UserGenres(done + {m}, byName) == UserGenres(done, byName) + {byName[m].genreNorm}
    ensures m !in byName ==> UserGenres(done + {m}, byName) == UserGenres(done, byName)
  {
  }

  /** agg after visiting the rated movies in `done`: per genre key, the sum and number of those ratings. */
  ghost function AggregateOf(done: set<string>, rated: map<string, real>, byName: map<string, Movie>): map<string, (real, nat)>
    requires done <= rated.Keys
  {
    map g | g in UserGenres(done, byName) :: (SetSum(UserMoviesIn(done, byName, g), rated), |UserMoviesIn(done, byName, g)|)
  }

  /** Before any movie is visited the aggregate is empty. */
  lemma AggregateEmpty(rated: map<string, real>, byName: map<string, Movie>)
    ensures AggregateOf({}, rated, byName) == map[]
  {
    assert UserGenres({}, byName) == {};
  }

  /** Every genre key in the aggregate has at least one rating. */
  lemma AggregateCounts(done: set<string>, rated: map<string, real>, byName: map<string, Movie>, g: string)
    requires done <= rated.Keys && g in AggregateOf(done, rated, byName)
    ensures AggregateOf(done, rated, byName)[g].1 >= 1
  {
    var m :| m in done && m in byName && byName[m].genreNorm == g;
    assert m in UserMoviesIn(done, byName, g);
  }

  /** Visiting a movie with a catalog record adds its rating to the sum and count of its record's genre. */
  lemma GenreSumStep(done: set<string>, rated: map<string, real>, byName: map<string, Movie>, m: string)
    requires done <= rated.Keys && m in rated && m !in done && m in byName
    ensures var gn := byName[m].genreNorm;
      && SetSum(UserMoviesIn(done + {m}, byName, gn), rated) == SetSum(UserMoviesIn(done, byName, gn), rated) + rated[m]
      && |UserMoviesIn(done + {m}, byName, gn)| == |UserMoviesIn(done, byName, gn)| + 1
  {
    var gn := byName[m].genreNorm;
    UserMoviesInAdd(done, byName, m, gn);
    SetSumInsert(UserMoviesIn(done, byName, gn), rated, m);
  }

  /** Visiting a movie with a catalog record adds its rating to its genre's sum and count. */
  lemma AggregateStep(done: set<string>, rated: map<string, real>, byName: map<string, Movie>, m: string, agg: map<string, (real, nat)>)
    requires done <= rated.Keys && m in rated && m !in done && m in byName
    requires agg == AggregateOf(done, rated, byName)
    ensures var gn := byName[m].genreNorm;
      var sc := if gn in agg then agg[gn] else (0.0, 0);
      AggregateOf(done + {m}, rated, byName) == agg[gn := (sc.0 + rated[m], sc.1 + 1)]
  {
    var gn := byName[m].genreNorm;
    var sc := if gn in agg then agg[gn] else (0.0, 0);
    var agg' := AggregateOf(done + {m}, rated, byName);
    AggregateStepKeys(done, rated, byName, m, agg, agg');
    AggregateStepAtGenre(done, rated, byName, m, agg, agg');
    AggregateOthers(done, rated, byName, m, agg, agg');
    MapUpdateEq(agg', agg, gn, (sc.0 + rated[m], sc.1 + 1));
  }

  /** The visit adds the record's genre to the aggregate's keys. */
  lemma AggregateStepKeys(done: set<string>, rated: map<string, real>, byName: map<string, Movie>, m: string,
                          agg: map<string, (real, nat)>, agg': map<string, (real, nat)>)
    requires done <= rated.Keys && m in rated && m !in done && m in byName
    requires agg == AggregateOf(done, rated, byName) && agg' == AggregateOf(done + {m}, rated, byName)
    ensures agg'.Keys == agg.Keys + {byName[m].genreNorm}
  {
    UserGenresAdd(done, byName, m);
    AggregateKeys(done, rated, byName);
    AggregateKeys(done + {m}, rated, byName);
  }

  /** The visit adds the rating to the sum and one to the count of the record's genre, starting from (0.0, 0). */
  lemma AggregateStepAtGenre(done: set<string>, rated: map<string, real>, byName: map<string, Movie>, m: string,
                             agg: map<string, (real, nat)>, agg': map<string, (real, nat)>)
    requires done <= rated.Keys && m in rated && m !in done && m in byName
    requires agg == AggregateOf(done, rated, byName) && agg' == AggregateOf(done + {m}, rated, byName)
    ensures var gn := byName[m].genreNorm;
      var sc := if gn in agg then agg[gn] else (0.0, 0);
      gn in agg' && agg'[gn] == (sc.0 + rated[m], sc.1 + 1)
  {
    var gn := byName[m].genreNorm;
    var sc := if gn in agg then agg[gn] else (0.0, 0);
    AggregateAtGenre(done, rated, byName, m);
    AggregateEntry(done, rated, byName, gn);
    PairEq(agg'[gn], sc.0 + rated[m], sc.1 + 1);
  }

  /** The aggregate's keys are the genres of the visited movies' records. */
  lemma AggregateKeys(done: set<string>, rated: map<string, real>, byName: map<string, Movie>)
    requires done <= rated.Keys
    ensures AggregateOf(done, rated, byName).Keys == UserGenres(done, byName)
  {
  }

  /** A pair is determined by its components. */
  lemma PairEq(p: (real, nat), x: real, y: nat)
    requires p.0 == x && p.1 == y
    ensures p == (x, y)
  {
  }

  /** Two maps that agree off one key k, where the first maps k to v, make the first an update of the second. */
  lemma MapUpdateEq<K, V>(a: map<K, V>, b: map<K, V>, k: K, v: V)
    requires a.Keys == b.Keys + {k} && a[k] == v
    requires forall g :: g in a && g != k ==> g in b && a[g] == b[g]
    ensures a == b[k := v]
  {
  }

  /** A genre's entry, or (0.0, 0) when absent: the sum and number of the visited ratings filed under it. */
  lemma AggregateEntry(done: set<string>, rated: map<string, real>, byName: map<string, Movie>, g: string)
    requires done <= rated.Keys
    ensures var agg := AggregateOf(done, rated, byName);
      var ms := UserMoviesIn(done, byName, g);
      var sc := if g in agg then agg[g] else (0.0, 0);
      sc.0 == SetSum(ms, rated) && sc.1 == |ms|
  {
    if g !in UserGenres(done, byName) {
      UserMoviesInEmpty(done, byName, g);
    }
  }

  /** The entry of the visited movie's genre after the visit. */
  lemma AggregateAtGenre(done: set<string>, rated: map<string, real>, byName: map<string, Movie>, m: string)
    requires done <= rated.Keys && m in rated && m !in done && m in byName
    ensures var gn := byName[m].genreNorm;
      var ms := UserMoviesIn(done, byName, gn);
      && gn in AggregateOf(done + {m}, rated, byName)
      && AggregateOf(done + {m}, rated, byName)[gn].0 == SetSum(ms, rated) + rated[m]
      && AggregateOf(done + {m}, rated, byName)[gn].1 == |ms| + 1
  {
    UserGenresAdd(done, byName, m);
    GenreSumStep(done, rated, byName, m);
  }

  /** Every other genre's entry is unchanged by the visit. */
  lemma AggregateOthers(done: set<string>, rated: map<string, real>, byName: map<string, Movie>, m: string,
                        agg: map<string, (real, nat)>, agg': map<string, (real, nat)>)
    requires done <= rated.Keys && m in rated && m !in done && m in byName
    requires agg == AggregateOf(done, rated, byName) && agg' == AggregateOf(done + {m}, rated, byName)
    ensures forall g :: g in agg' && g != byName[m].genreNorm ==> g in agg && agg'[g] == agg[g]
  {
    UserGenresAdd(done, byName, m);
    forall g | g in agg' && g != byName[m].genreNorm
      ensures g in agg && agg'[g] == agg[g]
    {
      UserMoviesInAdd(done, byName, m, g);
    }
  }

  /** Visiting a movie without a catalog record changes nothing. */
  lemma AggregateSkip(done: set<string>, rated: map<string, real>, byName: map<string, Movie>, m: string, agg: map<string, (real, nat)>)
    requires done <= rated.Keys && m in rated && m !in done && m !in byName
    requires agg == AggregateOf(done, rated, byName)
    ensures AggregateOf(done + {m}, rated, byName) == agg
  {
    var agg' := AggregateOf(done + {m}, rated, byName);
    UserGenresAdd(done, byName, m);
    forall g | g in agg' ensures agg'[g] == agg[g] {
      UserMoviesInAdd(done, byName, m, g);
    }
  }

  /** agg[g] turned into the candidate (g, s / c, c). */
  ghost function UserGenreEntry(rated: map<string, real>, byName: map<string, Movie>, g: string): TopGenre
    requires g in UserGenres(rated.Keys, byName)
  {
    var ms := UserMoviesIn(rated.Keys, byName, g);
    assert ms != {} by {
      var m :| m in rated && m in byName && byName[m].genreNorm == g;
      assert m in ms;
    }
    TopGenre(g, SetSum(ms, rated) / |ms| as real, |ms|)
  }

  /** The sort key of a candidate: mean descending, count descending, display spelling lower-cased. */
  function TopGenreKey(genreCase: map<string, string>, t: TopGenre): RankKey {
    RankKey(-t.avg, -(t.count as int), Lower(if t.genre in genreCase then genreCase[t.genre] else t.genre))
  }

  /** t is a first element of the sorted candidates: one of the user's genres that no other candidate precedes. */
  ghost predicate IsTopGenre(t: TopGenre, rated: map<string, real>, byName: map<string, Movie>, genreCase: map<string, string>) {
    && t.genre in UserGenres(rated.Keys, byName)
    && t == UserGenreEntry(rated, byName, t.genre)
    && forall g :: g in UserGenres(rated.Keys, byName) ==>
         !RankLt(TopGenreKey(genreCase, UserGenreEntry(rated, byName, g)), TopGenreKey(genreCase, t))
  }

  /** The candidate (gn, s / c, c) the sort sees for agg's entry at g. */
  function CandidateOf(agg: map<string, (real, nat)>, g: string): TopGenre
    requires g in agg && agg[g].1 >= 1
  {
    TopGenre(g, agg[g].0 / agg[g].1 as real, agg[g].1)
  }

  /** Every entry of agg has a count of at least one, so the filter `c >= 1` keeps them all. */
  predicate CountsPositive(agg: map<string, (real, nat)>) {
    forall g :: g in agg ==> agg[g].1 >= 1
  }

  /** No candidate of agg whose genre is outside `todo` sorts before t. */
  predicate FirstOutside(agg: map<string, (real, nat)>, genreCase: map<string, string>, todo: set<string>, t: TopGenre) {
    forall g :: g in agg && g !in todo && agg[g].1 >= 1 ==>
      !RankLt(TopGenreKey(genreCase, CandidateOf(agg, g)), TopGenreKey(genreCase, t))
  }

  /** A first candidate of agg: no candidate of agg sorts before t. */
  predicate IsFirstCandidate(agg: map<string, (real, nat)>, genreCase: map<string, string>, t: TopGenre) {
    && t.genre in agg && agg[t.genre].1 >= 1 && t == CandidateOf(agg, t.genre)
    && FirstOutside(agg, genreCase, {}, t)
  }

  /** Starting the search from the candidate of g0: only g0 is visited, and it does not sort before itself. */
  lemma FirstOutsideStart(agg: map<string, (real, nat)>, genreCase: map<string, string>, g0: string)
    requires g0 in agg && agg[g0].1 >= 1
    ensures FirstOutside(agg, genreCase, agg.Keys - {g0}, CandidateOf(agg, g0))
  {
    RankLtIrreflexive(TopGenreKey(genreCase, CandidateOf(agg, g0)));
  }

  /** Visiting a candidate that does not sort before t leaves t first. */
  lemma FirstOutsideKeep(agg: map<string, (real, nat)>, genreCase: map<string, string>, todo: set<string>, g: string, t: TopGenre)
    requires FirstOutside(agg, genreCase, todo, t) && g in agg && agg[g].1 >= 1
    requires !RankLt(TopGenreKey(genreCase, CandidateOf(agg, g)), TopGenreKey(genreCase, t))
    ensures FirstOutside(agg, genreCase, todo - {g}, t)
  {
  }

  /** Visiting a candidate that sorts before t makes it the first one. */
  lemma FirstOutsideReplace(agg: map<string, (real, nat)>, genreCase: map<string, string>, todo: set<string>, t: TopGenre, g: string)
    requires FirstOutside(agg, genreCase, todo, t) && g in agg && agg[g].1 >= 1
    requires RankLt(TopGenreKey(genreCase, CandidateOf(agg, g)), TopGenreKey(genreCase, t))
    ensures FirstOutside(agg, genreCase, todo - {g}, CandidateOf(agg, g))
  {
    var c := CandidateOf(agg, g);
    forall h | h in agg && h !in todo - {g} && agg[h].1 >= 1
      ensures !RankLt(TopGenreKey(genreCase, CandidateOf(agg, h)), TopGenreKey(genreCase, c))
    {
      if h == g {
        RankLtIrreflexive(TopGenreKey(genreCase, c));
      } else {
        RankLtChain(TopGenreKey(genreCase, CandidateOf(agg, h)), TopGenreKey(genreCase, c), TopGenreKey(genreCase, t));
      }
    }
  }

  /** The aggregate of all the user's ratings has the user's genres as keys and their candidates as entries. */
  lemma AggregateCandidates(rated: map<string, real>, byName: map<string, Movie>)
    ensures var agg := AggregateOf(rated.Keys, rated, byName);
      && agg.Keys == UserGenres(rated.Keys, byName)
      && CountsPositive(agg)
      && forall g :: g in agg ==> CandidateOf(agg, g) == UserGenreEntry(rated, byName, g)
  {
    var agg := AggregateOf(rated.Keys, rated, byName);
    AggregateKeys(rated.Keys, rated, byName);
    forall g | g in agg
      ensures agg[g].1 >= 1
    {
      AggregateCounts(rated.Keys, rated, byName, g);
    }
  }

  /** A first candidate of the full aggregate is a top genre. */
  lemma FirstCandidateIsTop(rated: map<string, real>, byName: map<string, Movie>, genreCase: map<string, string>, t: TopGenre)
    requires IsFirstCandidate(AggregateOf(rated.Keys, rated, byName), genreCase, t)
    ensures IsTopGenre(t, rated, byName, genreCase)
  {
    var agg := AggregateOf(rated.Keys, rated, byName);
    AggregateCandidates(rated, byName);
    forall g | g in UserGenres(rated.Keys, byName)
      ensures !RankLt(TopGenreKey(genreCase, UserGenreEntry(rated, byName, g)), TopGenreKey(genreCase, t))
    {
      assert g in agg && CandidateOf(agg, g) == UserGenreEntry(rated, byName, g);
    }
  }

  /**
   * A top-genre cache over the ratings by user: an entry exactly for the users with a
   * rated catalog record, and that entry their top genre.
   */
  ghost predicate TopGenresOk(cache: map<int, TopGenre>, byUser: map<int, map<string, real>>, byName: map<string, Movie>, genreCase: map<string, string>) {
    && (forall u :: u in cache <==> u in byUser && UserGenres(byUser[u].Keys, byName) != {})
    && (forall u :: u in cache && u in byUser ==> IsTopGenre(cache[u], byUser[u], byName, genreCase))
  }

  /** Over a well-formed catalog, candidates of different genres never have the same key. */
  lemma GenreKeysDistinct(c: Catalog, rated: map<string, real>, g1: string, g2: string)
    requires WellFormed(c)
    requires g1 in UserGenres(rated.Keys, c.byName) && g2 in UserGenres(rated.Keys, c.byName) && g1 != g2
    ensures TopGenreKey(c.genreCase, UserGenreEntry(rated, c.byName, g1)) != TopGenreKey(c.genreCase, UserGenreEntry(rated, c.byName, g2))
  {
    var m1 :| m1 in rated && m1 in c.byName && c.byName[m1].genreNorm == g1;
    var m2 :| m2 in rated && m2 in c.byName && c.byName[m2].genreNorm == g2;
    assert RecordOk(c, m1) && RecordOk(c, m2);
    assert DisplaysGenre(c.genreCase[g1], g1) && DisplaysGenre(c.genreCase[g2], g2);
  }

  /** Over a well-formed catalog the top genre is unique: sorting leaves no tie to break by position. */
  lemma TopGenreUnique(c: Catalog, rated: map<string, real>, t1: TopGenre, t2: TopGenre)
    requires WellFormed(c)
    requires IsTopGenre(t1, rated, c.byName, c.genreCase) && IsTopGenre(t2, rated, c.byName, c.genreCase)
    ensures t1 == t2
  {
    if t1.genre != t2.genre {
      GenreKeysDistinct(c, rated, t1.genre, t2.genre);
      RankLtTotal(TopGenreKey(c.genreCase, t1), TopGenreKey(c.genreCase, t2));
    }
  }

  /** The top genre's mean is a mean of the user's ratings in it, so it lies in [0, 5]. */
  lemma TopGenreBounds(t: TopGenre, rated: map<string, real>, byName: map<string, Movie>, genreCase: map<string, string>)
    requires IsTopGenre(t, rated, byName, genreCase)
    requires forall m :: m in rated ==> 0.0 <= rated[m] <= 5.0
    ensures 0.0 <= t.avg <= 5.0 && t.count >= 1
  {
    var ms := UserMoviesIn(rated.Keys, byName, t.genre);
    var m :| m in rated && m in byName && byName[m].genreNorm == t.genre;
    assert m in ms;
    SetSumBounds(ms, rated);
    DivBounds(SetSum(ms, rated), |ms| as real, 0.0, 5.0);
  }
}
