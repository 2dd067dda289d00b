/**
 * The recommender's module-level dictionaries as the fields of one session object, and
 * the operations that fill and read them in place: the two loaders, the statistics
 * passes, the top-genre cache and the recommendation selection. Each operation is
 * proved against the function that states its result.
 */
module Recommender {
  import opened Results
  import opened Text
  import opened Records
  import opened Catalog
  import opened Ratings
  import opened Stats
  import opened Order
  import opened Ranking
  import opened UserIds

  /** The ratings loader's dictionaries and USER_IDS, as one value. */
  datatype RatingsFields = RatingsFields(byMovie: map<string, seq<(int, real)>>, byUser: map<int, map<string, real>>, userIds: seq<int>)

  /** MOVIE_STATS, GENRE_STATS and USER_TOP_GENRE, as one value. */
  datatype DerivedFields = DerivedFields(movieStats: map<string, MovieStat>, genreStats: map<string, GenreStat>, topGenre: map<int, TopGenre>)

  class Session {
    var moviesById: map<int, Movie>
    var moviesByName: map<string, Movie>
    /** The keys of moviesByName in insertion order, the order every name scan follows. */
    var movieNames: seq<string>
    var genres: map<string, set<string>>
    var genreOriginalCase: map<string, string>
    var ratingsByMovie: map<string, seq<(int, real)>>
    var ratingsByUser: map<int, map<string, real>>
    var movieStats: map<string, MovieStat>
    var genreStats: map<string, GenreStat>
    var userIds: seq<int>
    var userTopGenre: map<int, TopGenre>

    /** The four dictionaries the movies loader fills. */
    function CatalogOf(): Catalog
      reads this
    {
      Catalog(moviesById, moviesByName, movieNames, genres, genreOriginalCase)
    }

    /** What the ratings loader fills. */
    function RatingsOf(): RatingsFields
      reads this
    {
      RatingsFields(ratingsByMovie, ratingsByUser, userIds)
    }

    /** What the statistics passes and the top-genre computation fill. */
    function DerivedOf(): DerivedFields
      reads this
    {
      DerivedFields(movieStats, genreStats, userTopGenre)
    }

    /** Every dictionary and list is empty. */
    predicate IsEmpty()
      reads this
    {
      && moviesById == map[] && moviesByName == map[] && movieNames == []
      && genres == map[] && genreOriginalCase == map[]
      && ratingsByMovie == map[] && ratingsByUser == map[] && userIds == []
      && movieStats == map[] && genreStats == map[] && userTopGenre == map[]
    }

    constructor()
      ensures IsEmpty()
    {
      moviesById, moviesByName, movieNames, genres, genreOriginalCase := map[], map[], [], map[], map[];
      ratingsByMovie, ratingsByUser, userIds := map[], map[], [];
      movieStats, genreStats, userTopGenre := map[], map[], map[];
    }

    /** Lines 120-122 and 129 of _clear_globals: the four dictionaries of the movies loader become empty. */
    method ClearCatalog()
      modifies this
      ensures CatalogOf() == EmptyCatalog
      ensures RatingsOf() == old(RatingsOf()) && DerivedOf() == old(DerivedOf())
    {
      moviesById, moviesByName, movieNames, genres, genreOriginalCase := map[], map[], [], map[], map[];
    }

    /** Lines 123-124 and 127: the ratings dictionaries and USER_IDS become empty. */
    method ClearRatings()
      modifies this
      ensures ratingsByMovie == map[] && ratingsByUser == map[] && userIds == []
      ensures CatalogOf() == old(CatalogOf()) && DerivedOf() == old(DerivedOf())
    {
      ratingsByMovie, ratingsByUser, userIds := map[], map[], [];
    }

    /** Lines 125-126 and 128: the statistics and the top-genre cache become empty. */
    method ClearDerived()
      modifies this
      ensures movieStats == map[] && genreStats == map[] && userTopGenre == map[]
      ensures CatalogOf() == old(CatalogOf()) && RatingsOf() == old(RatingsOf())
    {
      movieStats, genreStats, userTopGenre := map[], map[], map[];
    }

    /** _clear_globals: empty every dictionary and list. */
    method ClearGlobals()
      modifies this
      ensures IsEmpty()
    {
      ClearCatalog();
      ClearRatings();
      ClearDerived();
    }

    /**
     * The scan over MOVIES_BY_NAME's keys in _get_canonical_movie_name and in
     * load_ratings_file: the first key, in insertion order, that is the same movie.
     */
    method ScanNames(name: string) returns (found: Option<string>)
      ensures found == FindCanonical(movieNames, name)
    {
      var i := 0;
      while i < |movieNames|
        invariant 0 <= i <= |movieNames|
        invariant forall j :: 0 <= j < i ==> !SameMovieName(movieNames[j], name)
      {
        if SameMovieName(movieNames[i], name) {
          return Some(movieNames[i]);
        }
        i := i + 1;
      }
      return None;
    }

    /**
     * Lines 229-232: file the canonical name under the row's genre key, and keep the
     * first spelling seen of that key.
     */
    method TrackGenreInPlace(g: string, genreOriginal: string, canonical: string)
      modifies this
      ensures CatalogOf() == TrackGenre(old(CatalogOf()), g, genreOriginal, canonical)
      ensures RatingsOf() == old(RatingsOf()) && DerivedOf() == old(DerivedOf())
    {
      genres := genres[g := (if g in genres then genres[g] else {}) + {canonical}];
      genreOriginalCase := if g in genreOriginalCase then genreOriginalCase else genreOriginalCase[g := genreOriginal];
    }

    /** Lines 211-219: a new record under its name and its id; its name becomes the last key. */
    method InsertRecordInPlace(m: Movie)
      modifies this
      ensures CatalogOf() == InsertRecord(old(CatalogOf()), m)
      ensures RatingsOf() == old(RatingsOf()) && DerivedOf() == old(DerivedOf())
    {
      moviesByName := moviesByName[m.name := m];
      moviesById := moviesById[m.movieId := m];
      movieNames := movieNames + [m.name];
    }

    /**
     * Lines 210-232 for a row whose name resolved to `canonical`: insert a new record, or
     * abort when the existing record has another id; then track the genre.
     */
    method AddKeyedRowInPlace(row: MovieRow, canonical: string, lineNo: nat) returns (err: Option<LoadError>)
      modifies this
      ensures var r := AddKeyedRow(old(CatalogOf()), row, canonical, NormGenre(row.genre), lineNo);
        if r.Ok? then err.None? && CatalogOf() == r.value else err == Some(r.error) && CatalogOf() == old(CatalogOf())
      ensures RatingsOf() == old(RatingsOf()) && DerivedOf() == old(DerivedOf())
    {
      if canonical !in moviesByName {
        InsertRecordInPlace(Movie(row.id, canonical, row.genre, NormGenre(row.genre)));
      } else if moviesByName[canonical].movieId != row.id {
        return Some(SameNameDifferentId(lineNo));
      }
      var normG := NormGenre(row.genre);
      TrackGenreInPlace(normG, row.genre, canonical);
      return None;
    }

    /**
     * One parsed row of load_movies_file (lines 205-232): the catalog becomes that of
     * AddMovieRow, or stays as it was when the row's name is a known movie with another id.
     */
    method AddMovieRowInPlace(row: MovieRow, lineNo: nat) returns (err: Option<LoadError>)
      modifies this
      ensures var r := AddMovieRow(old(CatalogOf()), row, lineNo);
        if r.Ok? then err.None? && CatalogOf() == r.value else err == Some(r.error) && CatalogOf() == old(CatalogOf())
      ensures RatingsOf() == old(RatingsOf()) && DerivedOf() == old(DerivedOf())
    {
      var found := ScanNames(row.name);
      err := AddKeyedRowInPlace(row, found.GetOr(row.name), lineNo);
    }

    /** One non-blank line of the movies file (lines 206-232): the catalog becomes that of AddMoviesLine. */
    method AddMoviesLineInPlace(line: string, lineNo: nat) returns (err: Option<LoadError>)
      modifies this
      ensures var r := AddMoviesLine(old(CatalogOf()), line, lineNo);
        if r.Ok? then err.None? && CatalogOf() == r.value else err == Some(r.error) && CatalogOf() == old(CatalogOf())
      ensures RatingsOf() == old(RatingsOf()) && DerivedOf() == old(DerivedOf())
    {
      var parsed := ParseMoviesLine(line, lineNo);
      if parsed.Err? {
        MoviesLineRejected(CatalogOf(), line, lineNo);
        return Some(parsed.error);
      }
      MoviesLineAccepted(CatalogOf(), line, lineNo, parsed.value);
      err := AddMovieRowInPlace(parsed.value, lineNo);
    }

    /**
     * The loop of load_movies_file (lines 203-232) over the non-blank lines: the catalog and
     * the error are those of LoadLines from the catalog before the call.
     */
    method AddMoviesLines(lines: seq<string>) returns (err: Option<LoadError>)
      modifies this
      ensures var o := LoadLines(AddMoviesLine, old(CatalogOf()), lines, 1); CatalogOf() == o.state && err == o.error
      ensures RatingsOf() == old(RatingsOf()) && DerivedOf() == old(DerivedOf())
    {
      ghost var start := CatalogOf();
      var i := 0;
      assert lines[0..] == lines;
      while i < |lines|
        invariant 0 <= i <= |lines|
        invariant LoadLines(AddMoviesLine, start, lines, 1) == LoadLines(AddMoviesLine, CatalogOf(), lines[i..], i + 1)
        invariant RatingsOf() == old(RatingsOf()) && DerivedOf() == old(DerivedOf())
      {
        ghost var before := CatalogOf();
        err := AddMoviesLineInPlace(lines[i], i + 1);
        if err.Some? {
          LoadLinesReject(AddMoviesLine, before, lines, i, i + 1, err.value);
          return;
        }
        LoadLinesAccept(AddMoviesLine, before, lines, i, i + 1, CatalogOf());
        i := i + 1;
      }
      assert lines[i..] == [];
      return None;
    }

    /**
     * load_movies_file on the lines of the file: the catalog and the error are those of
     * LoadMovies from the catalog before the call; rows before an aborting row stay loaded.
     */
    method LoadMoviesFile(raw: seq<string>) returns (err: Option<LoadError>)
      modifies this
      ensures var o := LoadMovies(old(CatalogOf()), raw); CatalogOf() == o.state && err == o.error
      ensures RatingsOf() == old(RatingsOf()) && DerivedOf() == old(DerivedOf())
    {
      var lines := NonBlankLines(raw);
      if lines == [] {
        return Some(MoviesFileEmpty);
      }
      err := AddMoviesLines(lines);
    }

    /**
     * One parsed row of load_ratings_file (lines 258-279): resolve its name by the key
     * scan, abort on an unknown movie, skip a (user, movie) pair already seen in this
     * call, otherwise append to the movie's list and set the user's entry.
     */
    method AddRatingRowInPlace(row: RatingRow, lineNo: nat, seen: set<(int, string)>) returns (err: Option<LoadError>, seen': set<(int, string)>)
      modifies this
      ensures var r := AddRatingRow(movieNames, RatingsState(old(ratingsByMovie), old(ratingsByUser), seen), row, lineNo);
        if r.Ok? then err.None? && RatingsState(ratingsByMovie, ratingsByUser, seen') == r.value
        else err == Some(r.error) && ratingsByMovie == old(ratingsByMovie) && ratingsByUser == old(ratingsByUser)
      ensures CatalogOf() == old(CatalogOf()) && userIds == old(userIds) && DerivedOf() == old(DerivedOf())
    {
      var found := ScanNames(row.name);
      if found.None? {
        return Some(UnknownMovie(lineNo)), seen;
      }
      var canonical := found.value;
      var key := (row.user, canonical);
      if key in seen {
        return None, seen;
      }
      seen' := seen + {key};
      ratingsByMovie := ratingsByMovie[canonical := (if canonical in ratingsByMovie then ratingsByMovie[canonical] else []) + [(row.user, row.rating)]];
      ratingsByUser := ratingsByUser[row.user := (if row.user in ratingsByUser then ratingsByUser[row.user] else map[])[canonical := row.rating]];
      err := None;
    }

    /** One non-blank line of the ratings file (lines 256-279): the indexes become those of AddRatingsLine. */
    method AddRatingsLineInPlace(line: string, lineNo: nat, seen: set<(int, string)>) returns (err: Option<LoadError>, seen': set<(int, string)>)
      modifies this
      ensures var r := RatingsStep(movieNames)(RatingsState(old(ratingsByMovie), old(ratingsByUser), seen), line, lineNo);
        if r.Ok? then err.None? && RatingsState(ratingsByMovie, ratingsByUser, seen') == r.value
        else err == Some(r.error) && ratingsByMovie == old(ratingsByMovie) && ratingsByUser == old(ratingsByUser)
      ensures CatalogOf() == old(CatalogOf()) && userIds == old(userIds) && DerivedOf() == old(DerivedOf())
    {
      var parsed := ParseRatingsLine(line, lineNo);
      if parsed.Err? {
        RatingsLineRejected(movieNames, RatingsState(ratingsByMovie, ratingsByUser, seen), line, lineNo);
        return Some(parsed.error), seen;
      }
      RatingsLineAccepted(movieNames, RatingsState(ratingsByMovie, ratingsByUser, seen), line, lineNo, parsed.value);
      err, seen' := AddRatingRowInPlace(parsed.value, lineNo, seen);
    }

    /**
     * The loop of load_ratings_file (lines 253-279) over the non-blank lines: the two
     * indexes and the error are those of LoadLines from the indexes before the call and
     * an empty set of seen pairs.
     */
    method AddRatingsLines(lines: seq<string>) returns (err: Option<LoadError>)
      modifies this
      ensures var o := LoadLines(RatingsStep(movieNames), RatingsState(old(ratingsByMovie), old(ratingsByUser), {}), lines, 1);
        ratingsByMovie == o.state.byMovie && ratingsByUser == o.state.byUser && err == o.error
      ensures CatalogOf() == old(CatalogOf()) && userIds == old(userIds) && DerivedOf() == old(DerivedOf())
    {
      var seen: set<(int, string)> := {};
      ghost var step := RatingsStep(movieNames);
      ghost var start := RatingsState(ratingsByMovie, ratingsByUser, seen);
      var i := 0;
      assert lines[0..] == lines;
      while i < |lines|
        invariant 0 <= i <= |lines|
        invariant LoadLines(step, start, lines, 1) == LoadLines(step, RatingsState(ratingsByMovie, ratingsByUser, seen), lines[i..], i + 1)
        invariant CatalogOf() == old(CatalogOf()) && userIds == old(userIds) && DerivedOf() == old(DerivedOf())
      {
        ghost var before := RatingsState(ratingsByMovie, ratingsByUser, seen);
        err, seen := AddRatingsLineInPlace(lines[i], i + 1, seen);
        if err.Some? {
          LoadLinesReject(step, before, lines, i, i + 1, err.value);
          return;
        }
        LoadLinesAccept(step, before, lines, i, i + 1, RatingsState(ratingsByMovie, ratingsByUser, seen));
        i := i + 1;
      }
      assert lines[i..] == [];
      return None;
    }

    /** Line 282: USER_IDS becomes the sorted keys of RATINGS_BY_USER. */
    method SortUserIds()
      modifies this
      ensures userIds == SortedIds(ratingsByUser.Keys)
      ensures CatalogOf() == old(CatalogOf()) && DerivedOf() == old(DerivedOf())
      ensures ratingsByMovie == old(ratingsByMovie) && ratingsByUser == old(ratingsByUser)
    {
      userIds := SortedIds(ratingsByUser.Keys);
    }

    /**
     * load_ratings_file on the lines of the file: the two indexes and the error are those
     * of LoadRatings from the indexes before the call and the catalog keys; USER_IDS becomes
     * the sorted user ids only when the whole file loads.
     */
    method LoadRatingsFile(raw: seq<string>) returns (err: Option<LoadError>)
      modifies this
      ensures var o := LoadRatings(movieNames, old(ratingsByMovie), old(ratingsByUser), raw);
        ratingsByMovie == o.state.byMovie && ratingsByUser == o.state.byUser && err == o.error
      ensures err.None? ==> userIds == SortedIds(ratingsByUser.Keys)
      ensures err.Some? ==> userIds == old(userIds)
      ensures CatalogOf() == old(CatalogOf()) && DerivedOf() == old(DerivedOf())
    {
      var lines := NonBlankLines(raw);
      if lines == [] {
        return Some(RatingsFileEmpty);
      }
      err := AddRatingsLines(lines);
      if err.None? {
        SortUserIds();
      }
    }

    /**
     * The loop of compute_movie_stats (lines 290-295): the mean and count of every
     * non-empty rating list, keyed by movie.
     */
    method MovieStatsOfRatings() returns (stats: map<string, MovieStat>)
      ensures stats == MovieStatsOf(ratingsByMovie)
    {
      var byMovie := ratingsByMovie;
      stats := map[];
      var todo := byMovie.Keys;
      while todo != {}
        invariant todo <= byMovie.Keys
        invariant stats == MovieStatsExcept(byMovie, todo)
        decreases |todo|
      {
        var movieName :| movieName in todo;
        MovieStatsStep(byMovie, todo, movieName);
        var ratingList := byMovie[movieName];
        if ratingList != [] {
          var total := SumRatings(ratingList);
          var cnt := |ratingList|;
          stats := stats[movieName := MovieStat(total / cnt as real, cnt)];
        }
        todo := todo - {movieName};
      }
      MovieStatsExceptNone(byMovie);
    }

    /** compute_movie_stats: MOVIE_STATS becomes the mean and count of every non-empty rating list. */
    method ComputeMovieStats()
      modifies this
      ensures movieStats == MovieStatsOf(ratingsByMovie)
      ensures CatalogOf() == old(CatalogOf()) && RatingsOf() == old(RatingsOf())
      ensures genreStats == old(genreStats) && userTopGenre == old(userTopGenre)
    {
      var stats := MovieStatsOfRatings();
      movieStats := stats;
    }

    /**
     * The inner loop of compute_genre_stats over one genre's movies: the means of those
     * with a positive count, and the sum of their counts.
     */
    method RatedMeans(movies: set<string>) returns (avgs: seq<real>, totalCount: nat)
      ensures MeansSoFar(movies, movieStats, avgs, totalCount)
    {
      avgs, totalCount := [], 0;
      var todo := movies;
      ghost var done: set<string> := {};
      while todo != {}
        invariant todo <= movies && done <= movies
        invariant forall x :: x in movies ==> x in done || x in todo
        invariant done !! todo
        invariant MeansSoFar(done, movieStats, avgs, totalCount)
        decreases |todo|
      {
        var m :| m in todo;
        MeansStep(done, movieStats, m, avgs, totalCount);
        if m in movieStats && movieStats[m].count > 0 {
          avgs := avgs + [movieStats[m].avg];
          totalCount := totalCount + movieStats[m].count;
        }
        todo := todo - {m};
        done := done + {m};
      }
      assert done == movies;
    }

    /**
     * The loop of compute_genre_stats (lines 304-316): for every genre with a rated movie,
     * the plain mean of its movies' means and the sum of their counts.
     */
    method GenreStatsOfMovies() returns (stats: map<string, GenreStat>)
      ensures stats == GenreStatsOf(genres, movieStats)
    {
      stats := map[];
      var todo := genres.Keys;
      while todo != {}
        invariant todo <= genres.Keys
        invariant stats == GenreStatsExcept(genres, movieStats, todo)
        decreases |todo|
      {
        var normG :| normG in todo;
        var avgs, totalCount := RatedMeans(genres[normG]);
        GenreStatsStep(genres, movieStats, todo, normG);
        GenreStatOfMeans(genres[normG], movieStats, avgs, totalCount);
        if avgs != [] {
          stats := stats[normG := GenreStat(SumReals(avgs) / |avgs| as real, totalCount)];
        }
        todo := todo - {normG};
      }
      assert GenreStatsExcept(genres, movieStats, {}) == GenreStatsOf(genres, movieStats);
    }

    /** compute_genre_stats: GENRE_STATS becomes GenreStatsOf of the genre index and MOVIE_STATS. */
    method ComputeGenreStats()
      modifies this
      ensures genreStats == GenreStatsOf(genres, movieStats)
      ensures CatalogOf() == old(CatalogOf()) && RatingsOf() == old(RatingsOf())
      ensures movieStats == old(movieStats) && userTopGenre == old(userTopGenre)
    {
      var stats := GenreStatsOfMovies();
      genreStats := stats;
    }

    /** The ratings of user `uid` (RATINGS_BY_USER.get(uid, {})). */
    function RatedBy(uid: int): map<string, real>
      reads this
    {
      if uid in ratingsByUser then ratingsByUser[uid] else map[]
    }

    /**
     * The first loop of _compute_user_top_genre_for and of compute_user_top_genre_cache
     * (lines 652-658, 330-336): for each genre key of a rated catalog record, the sum and
     * the number of the user's ratings of records filed under it.
     */
    method AggregateByGenre(rated: map<string, real>) returns (agg: map<string, (real, nat)>)
      ensures agg == AggregateOf(rated.Keys, rated, moviesByName)
    {
      agg := map[];
      var todo := rated.Keys;
      ghost var done: set<string> := {};
      AggregateEmpty(rated, moviesByName);
      while todo != {}
        invariant todo <= rated.Keys && done == rated.Keys - todo
        invariant agg == AggregateOf(done, rated, moviesByName)
        decreases |todo|
      {
        var movieName :| movieName in todo;
        agg := AddToAggregate(agg, rated, movieName, done);
        todo := todo - {movieName};
        done := done + {movieName};
      }
      assert done == rated.Keys;
    }

    /** One pass of that loop (lines 653-658): a rated catalog record adds its rating to its genre's sum and count. */
    method AddToAggregate(agg: map<string, (real, nat)>, rated: map<string, real>, movieName: string, ghost done: set<string>)
      returns (agg': map<string, (real, nat)>)
      requires done <= rated.Keys && movieName in rated && movieName !in done
      requires agg == AggregateOf(done, rated, moviesByName)
      ensures agg' == AggregateOf(done + {movieName}, rated, moviesByName)
    {
      if movieName !in moviesByName {
        AggregateSkip(done, rated, moviesByName, movieName, agg);
        return agg;
      }
      var gn := moviesByName[movieName].genreNorm;
      var sc := if gn in agg then agg[gn] else (0.0, 0);
      agg' := agg[gn := (sc.0 + rated[movieName], sc.1 + 1)];
      AggregateStep(done, rated, moviesByName, movieName, agg);
    }

    /**
     * The top genre of a user with ratings `rated`: none when no rated movie is a catalog
     * record, otherwise a first element of the candidates sorted by mean descending, count
     * descending and lower-cased display spelling (lines 659-667, 338-348).
     */
    method TopGenreOf(rated: map<string, real>) returns (top: Option<TopGenre>)
      ensures top.None? <==> UserGenres(rated.Keys, moviesByName) == {}
      ensures top.Some? ==> IsTopGenre(top.value, rated, moviesByName, genreOriginalCase)
    {
      var agg := AggregateByGenre(rated);
      AggregateCandidates(rated, moviesByName);
      if agg == map[] {
        return None;
      }
      var best := PickTopGenre(agg);
      FirstCandidateIsTop(rated, moviesByName, genreOriginalCase, best);
      return Some(best);
    }

    /**
     * The minimum search standing for sorted(...)[0] over a non-empty aggregate
     * (lines 659-667, 338-348): a candidate no other candidate sorts before.
     */
    method PickTopGenre(agg: map<string, (real, nat)>) returns (best: TopGenre)
      requires agg != map[] && CountsPositive(agg)
      ensures IsFirstCandidate(agg, genreOriginalCase, best)
    {
      assert agg.Keys != {};
      var g0 :| g0 in agg;
      best := TopGenre(g0, agg[g0].0 / agg[g0].1 as real, agg[g0].1);
      FirstOutsideStart(agg, genreOriginalCase, g0);
      var todo := agg.Keys - {g0};
      while todo != {}
        invariant todo <= agg.Keys
        invariant best.genre in agg && agg[best.genre].1 >= 1 && best == CandidateOf(agg, best.genre)
        invariant FirstOutside(agg, genreOriginalCase, todo, best)
        decreases |todo|
      {
        var gn :| gn in todo;
        var cand := TopGenre(gn, agg[gn].0 / agg[gn].1 as real, agg[gn].1);
        if RankLt(TopGenreKey(genreOriginalCase, cand), TopGenreKey(genreOriginalCase, best)) {
          FirstOutsideReplace(agg, genreOriginalCase, todo, best, gn);
          best := cand;
        } else {
          FirstOutsideKeep(agg, genreOriginalCase, todo, gn, best);
        }
        todo := todo - {gn};
      }
    }

    /**
     * _compute_user_top_genre_for: store the user's top genre in USER_TOP_GENRE, or leave
     * the cache as it is when none of their rated movies is a catalog record.
     */
    method ComputeUserTopGenreFor(uid: int)
      modifies this
      ensures UserGenres(RatedBy(uid).Keys, moviesByName) == {} ==> userTopGenre == old(userTopGenre)
      ensures UserGenres(RatedBy(uid).Keys, moviesByName) != {} ==>
        uid in userTopGenre && userTopGenre == old(userTopGenre)[uid := userTopGenre[uid]] &&
        IsTopGenre(userTopGenre[uid], RatedBy(uid), moviesByName, genreOriginalCase)
      ensures CatalogOf() == old(CatalogOf()) && RatingsOf() == old(RatingsOf())
      ensures movieStats == old(movieStats) && genreStats == old(genreStats)
    {
      var top := TopGenreOf(RatedBy(uid));
      if top.Some? {
        userTopGenre := userTopGenre[uid := top.value];
      }
    }

    /** USER_TOP_GENRE holds an entry exactly for the users with a rated catalog record, and it is their top genre. */
    ghost predicate TopGenreCacheOk()
      reads this
    {
      TopGenresOk(userTopGenre, ratingsByUser, moviesByName, genreOriginalCase)
    }

    /**
     * The loop of compute_user_top_genre_cache (lines 327-348): the top genre of every user
     * with ratings, for the users with a rated catalog record.
     */
    method TopGenresOfUsers() returns (cache: map<int, TopGenre>)
      ensures TopGenresOk(cache, ratingsByUser, moviesByName, genreOriginalCase)
    {
      cache := map[];
      var todo := ratingsByUser.Keys;
      while todo != {}
        invariant todo <= ratingsByUser.Keys
        invariant forall u :: u in cache <==> u in ratingsByUser && u !in todo && UserGenres(ratingsByUser[u].Keys, moviesByName) != {}
        invariant forall u :: u in cache && u in ratingsByUser ==>
          IsTopGenre(cache[u], ratingsByUser[u], moviesByName, genreOriginalCase)
        decreases |todo|
      {
        // The lemma ElementOf exhibits a member of todo: the witness the choice below needs.
        ghost var some := ElementOf(todo);
        var uid :| uid in todo;
        var top := TopGenreOf(ratingsByUser[uid]);
        if top.Some? {
          cache := cache[uid := top.value];
        }
        todo := todo - {uid};
      }
    }

    /** compute_user_top_genre_cache: rebuild USER_TOP_GENRE for every user with ratings. */
    method ComputeUserTopGenreCache()
      modifies this
      ensures TopGenreCacheOk()
      ensures CatalogOf() == old(CatalogOf()) && RatingsOf() == old(RatingsOf())
      ensures movieStats == old(movieStats) && genreStats == old(genreStats)
    {
      var cache := TopGenresOfUsers();
      userTopGenre := cache;
    }

    /** GENRES.get(g, set()): the movies filed under genre key g. */
    function GenreMovies(g: string): set<string>
      reads this
    {
      if g in genres then genres[g] else {}
    }

    /**
     * Lines 601-610: the genre's movies sorted by _movie_sort_key, those the user rated
     * dropped, and the first three kept.
     */
    method SelectRecommendations(uid: int, g: string) returns (recs: seq<string>)
      ensures IsRecommendation(recs, GenreMovies(g), RatedBy(uid).Keys, SortKeyOf(movieStats, moviesByName))
    {
      var rated := RatedBy(uid).Keys;
      var key := SortKeyOf(movieStats, moviesByName);
      var candidates := SortByKey(key, GenreMovies(g));
      var unseen := Unseen(candidates, rated);
      recs := unseen[..if |unseen| < 3 then |unseen| else 3];
      FirstThreeUnseen(key, candidates, GenreMovies(g), rated);
    }

    /**
     * feature_recommend_movies for a valid user id (lines 587-610): the cached top genre,
     * computed into the cache when missing, and the recommendations from that genre.
     */
    method RecommendFor(uid: int) returns (top: Option<TopGenre>, recs: seq<string>)
      modifies this
      ensures top == (if uid in userTopGenre then Some(userTopGenre[uid]) else None)
      ensures uid in old(userTopGenre) ==> userTopGenre == old(userTopGenre)
      ensures forall u :: u != uid ==>
        && (u in userTopGenre <==> u in old(userTopGenre))
        && (u in userTopGenre ==> userTopGenre[u] == old(userTopGenre)[u])
      ensures old(TopGenreCacheOk()) ==> TopGenreCacheOk()
      ensures (old(TopGenreCacheOk()) || uid !in old(userTopGenre)) ==>
        (top.Some? <==> UserGenres(RatedBy(uid).Keys, moviesByName) != {}) &&
        (top.Some? ==> IsTopGenre(top.value, RatedBy(uid), moviesByName, genreOriginalCase))
      ensures top.None? ==> recs == []
      ensures top.Some? ==> IsRecommendation(recs, GenreMovies(top.value.genre), RatedBy(uid).Keys, SortKeyOf(movieStats, moviesByName))
      ensures CatalogOf() == old(CatalogOf()) && RatingsOf() == old(RatingsOf())
      ensures movieStats == old(movieStats) && genreStats == old(genreStats)
    {
      if uid !in userTopGenre {
        ComputeUserTopGenreFor(uid);
      }
      if uid !in userTopGenre {
        return None, [];
      }
      top := Some(userTopGenre[uid]);
      recs := SelectRecommendations(uid, top.value.genre);
    }
  }
}
