# Movie recommender: loaders, statistics and recommendation selection

This project models the data core of `movie_recommender.py`, a console program that
loads a movies file (`genre|movie_id|movie_name`) and a ratings file
(`movie_name|rating|user_id`) into module-level dictionaries. It then computes
per-movie and per-genre statistics and each user's preferred genre, and recommends up
to three unseen movies from that genre.

The model follows the program's own shape:

- **`Text`** (`text.dfy`): the Python string primitives the loaders rely on, written out.
  - `str.strip()` over the `str.isspace()` characters.
  - `str.lower()` for Basic Latin and Latin-1 letters.
  - `str.split("|")` and its inverse `Join`.
  - `int()` and `float()` on base-10 text, including `inf` and `nan`.
  - The code-point order of `str` values.
- **`Records`** (`records.dfy`):
  - the `LoadError` kinds and the list of non-blank lines both loaders build;
  - the generic per-line loop `LoadLines`, which stops at the first error and keeps what earlier lines changed;
  - the two line parsers, movie-name equivalence, the canonical-name scan and `_norm_genre`.
- **`Catalog`** (`catalog.dfy`): `load_movies_file` as a fold over lines of a value holding `MOVIES_BY_ID`, `MOVIES_BY_NAME` (with its key order), `GENRES` and `GENRE_ORIGINAL_CASE`. The catalog invariant `WellFormed` is proved to hold after every load.
- **`Ratings`** (`ratings.dfy`): `load_ratings_file` as a fold of `RATINGS_BY_MOVIE`, `RATINGS_BY_USER` and `seen_user_movie`. It proves three things:
  - the two indexes agree;
  - the first rating of every (user, movie) pair is the one kept;
  - an unknown movie aborts the load.
- **`UserIds`** (`user_ids.dfy`): `sorted(RATINGS_BY_USER.keys())`.
- **`Stats`** (`stats.dfy`): the specifications of `compute_movie_stats`, `compute_genre_stats` and the per-user top-genre choice.
- **`Order`** and **`Ranking`** (`order.dfy`, `ranking.dfy`):
  - the tuple sort keys `_movie_sort_key` and `_genre_sort_key`, compared field by field;
  - a sorted insertion that puts a genre's movies in key order;
  - the selection of recommendations.
- **`Recommender`** (`session.dfy`): a `Session` class whose fields are the module-level dictionaries. Its methods are the imperative code of the source, each proved equal to the function above that states its result, or to the predicate that characterises it:
  - the loaders' per-line loops;
  - the statistics loops;
  - the aggregation and the top-genre choice;
  - the cache;
  - the recommendation flow.

## Where the code and its tests differ

The model follows the code, `movie_recommender.py`. Its module docstring (line 18) agrees with the code that an out-of-range rating aborts the load. Some expectations in `test_movie_recommender.py` do not match the code:

- **Out-of-range ratings.** The tests expect these rows to be skipped and the load to succeed (line 91, and line 103 for a mixed file). The code aborts the load with the line number (lines 178-179).
- **Unknown movies.** The tests expect a rating that names an unknown movie to be skipped (line 93). The code aborts (lines 266-270).
- **Negative ids.** The tests expect a negative movie id (line 66) or user id (line 113) to abort. The code accepts any integer (lines 155-158 and 180-183).
- **Reused ids.** The tests expect a movie id reused under another name to be a conflict (line 67). The code has no such check: a new name with an id already in use overwrites `MOVIES_BY_ID[id]` (line 219).
- **Years in names.** The tests expect a name without a well-formed year to abort (lines 70-72 and 80). The code has no title/year check, so any non-empty name is accepted (lines 150-153).
- **`nan` and `inf` ratings.** The tests expect them to abort (lines 110-111), and they do, but not as non-numeric. Python's `float()` accepts them, and they then fail the range test, so the error is the out-of-range one (`RatingOutOfBounds`).
- **No atomicity.** On an error, the rows before the failing line stay in the dictionaries. `LoadLinesStopsAtError`, `LoadMoviesStopsAtError` and `LoadRatingsStopsAtError` state exactly that partial state.
- **Line numbers.** They count non-blank lines only (lines 200 and 205).
- **Duplicate rows in another genre.** A later row of an already-known movie under another genre still adds the canonical name to that genre's set (lines 229-232). The movie's record keeps its first genre.

## Model

| member | source | states |
|---|---|---|
| Text.StripStart | movie_recommender.py:151-152 | the leading-strip result is a suffix of the text, starts with a kept character, and everything dropped satisfies the predicate |
| Text.StripEnd | movie_recommender.py:147 | the trailing-strip result is a prefix of the text, ends with a kept character, and everything dropped satisfies the predicate |
| Text.StripShape | movie_recommender.py:151-152 | the result of `strip()` neither starts nor ends with whitespace |
| Text.StripEmptyIffBlank | movie_recommender.py:200 | `s.strip()` is empty exactly when every character of `s` is whitespace |
| Text.StripIdempotent | movie_recommender.py:151-152 | stripping a stripped text changes nothing |
| Text.StripUnpadded | movie_recommender.py:96 | a text with no whitespace at either end is its own strip |
| Text.LowerIdempotent | movie_recommender.py:96 | lower-casing twice is lower-casing once |
| Text.LowerCharSpace | movie_recommender.py:96 | lower-casing neither creates nor removes whitespace |
| Text.Split | movie_recommender.py:147 | splitting on the bar gives one more part than there are bars, and no part contains a bar |
| Text.JoinSplit | movie_recommender.py:147 | joining the parts of a split with the delimiter gives the text back |
| Text.SplitJoin | movie_recommender.py:147 | splitting a join of delimiter-free parts gives the parts back |
| Text.ParseIntShowInt | movie_recommender.py:156 | `int()` reads back every integer written in decimal |
| Text.IntTextIsFloatText | movie_recommender.py:175 | a text `int()` accepts is accepted by `float()` with the same value |
| Text.NegativeIntText | movie_recommender.py:175 | the minus-signed case of the above |
| Text.StrLtIrreflexive | movie_recommender.py:425 | no text sorts before itself |
| Text.StrLtTransitive | movie_recommender.py:425 | text order is transitive |
| Text.StrLtTotal | movie_recommender.py:425 | of two different texts one sorts before the other |
| Records.NonBlankLinesKeeps | movie_recommender.py:200 | every line of the file that is not blank once its newlines are stripped is kept, in that stripped form |
| Records.NonBlankLinesOnly | movie_recommender.py:200 | every kept line is the newline-stripped form of a line of the file |
| Records.NonBlankLinesAppend | movie_recommender.py:200 | file order is kept: the lines kept from `a + b` are those kept from `a` followed by those kept from `b` |
| Records.NonBlankLinesEmpty | movie_recommender.py:200-203 | no line is kept exactly when every line of the file is blank (the empty-file case) |
| Records.LoadLinesStopsAtError | movie_recommender.py:205-206 | when a step names its own line in every error, a failed load reports a line of the file; the state left is the successful load of the lines before it, and the step fails on that line |
| Records.LoadLinesConcat | movie_recommender.py:205 | loading `a + b` is loading `a`, then `b` from where `a` stopped unless `a` failed |
| Records.LoadLinesSplit | movie_recommender.py:205 | a successful load is the load of a prefix followed by the load of the rest |
| Records.ParseMoviesLine | movie_recommender.py:141-159 | field-count error exactly when the line does not have three fields; only the three movie-line errors; on success, genre and name are non-empty, free of whitespace padding and of the delimiter |
| Records.ParseMoviesLineOutcome | movie_recommender.py:141-159 | one exact condition per outcome, in the source's check order: empty-field error exactly when the line has three fields and a stripped field is empty; id error exactly when all three are non-blank and `int()` rejects the id field; accepted exactly otherwise, with the stripped genre, `int()` of the id field and the stripped name |
| Records.MoviesLineRoundTrip | movie_recommender.py:141-159 | a line written from a row with clean genre and name parses back to that row |
| Records.ParseRatingsLine | movie_recommender.py:162-184 | field-count error exactly when the line does not have three fields; only the five ratings-line errors; on success, a clean name and a rating in [0, 5] |
| Records.ParseRatingsLineOutcome | movie_recommender.py:162-184 | one exact condition per outcome, in the source's check order: an empty stripped field, then a rating `float()` rejects, then a rating outside [0, 5] (inf and nan included), then a user id `int()` rejects; accepted exactly otherwise, with the stripped name, the parsed rating and the parsed user id |
| Records.ParseRatingsFields | movie_recommender.py:168-184 | a line of three non-blank fields, padded or not, with a finite numeric rating and an integer user id is accepted with the stripped name exactly when the rating is in [0, 5], and is otherwise out of bounds |
| Records.RatingsLineRoundTrip | movie_recommender.py:162-184 | a ratings line with a whole-number rating parses back to its row when the rating is at most 5; otherwise it gives the out-of-bounds error |
| Records.SameMovieNameCharwise | movie_recommender.py:99-104 | two names are the same movie exactly when they have equal length and agree character by character up to case |
| Records.SameMovieNameEquivalence | movie_recommender.py:99-104 | the same-movie relation is reflexive, symmetric and transitive |
| Records.FirstEquivalent | movie_recommender.py:112-115 | the scan stops at the first key equivalent to the name, and no earlier key is equivalent |
| Records.CanonicalNameSpec | movie_recommender.py:107-115 | over pairwise-distinct keys: the canonical name is equivalent to the input; it is a key exactly when some key is equivalent; every equivalent key is it; when no key is equivalent it is the input unchanged |
| Records.NormGenreIsKey | movie_recommender.py:94-96 | a genre key is its own key |
| Catalog.KeysNotSameMovie | movie_recommender.py:208-219 | no two different keys of `MOVIES_BY_NAME` are the same movie |
| Catalog.EmptyCatalogWellFormed | movie_recommender.py:44-55 | the empty dictionaries satisfy the catalog invariant |
| Catalog.CanonicalInCatalog | movie_recommender.py:107-115 | in a well-formed catalog the canonical name is equivalent to the input; it is a key exactly when some key is equivalent; that key is unique; when no key is equivalent it is the input unchanged |
| Catalog.CleanGenreDisplays | movie_recommender.py:229-232 | a parsed genre spelling is stripped, non-empty and lower-cases to its key |
| Catalog.TrackGenreWellFormed | movie_recommender.py:229-232 | filing a catalog name under a genre key, with a spelling of that key, keeps the catalog well-formed |
| Catalog.TrackGenreKeysListed | movie_recommender.py:229-232 | filing under a genre leaves the keys and their order alone |
| Catalog.TrackGenreGenresOk | movie_recommender.py:229-232 | after filing, every genre set holds only catalog names and every genre key has a display spelling |
| Catalog.TrackGenreRecordsOk | movie_recommender.py:229-232 | filing under a genre keeps every record filed under its own name and genre |
| Catalog.TrackGenreIdsOk | movie_recommender.py:229-232 | filing under a genre keeps every id pointing at a current record |
| Catalog.InsertWellFormed | movie_recommender.py:211-232 | inserting a record whose name no key is equivalent to, then filing it under its genre, keeps the catalog well-formed |
| Catalog.InsertKeysListed | movie_recommender.py:211-219 | a new non-equivalent key keeps the keys pairwise distinct and listed once in insertion order |
| Catalog.InsertRecordsOk | movie_recommender.py:211-219 | a new record leaves every other record valid |
| Catalog.InsertIdsOk | movie_recommender.py:211-219 | after the insert (which may overwrite `MOVIES_BY_ID[id]`) every id still points at a current record |
| Catalog.TrackNewRecordOk | movie_recommender.py:211-232 | once filed under its genre, the new record is valid too |
| Catalog.InsertGenresOk | movie_recommender.py:211-219 | inserting a record keeps the genre index valid |
| Catalog.AddKeyedRowWellFormed | movie_recommender.py:210-232 | a row resolved to an existing key, or to a fresh non-equivalent name, keeps the catalog well-formed when accepted |
| Catalog.AddMovieRowWellFormed | movie_recommender.py:206-232 | an accepted parsed row keeps the catalog well-formed |
| Catalog.AddMoviesLineErrorLine | movie_recommender.py:205-227 | every error of a movies line names that line |
| Catalog.AddKeyedRowError | movie_recommender.py:220-227 | the only error of a resolved row is the same-name-different-id conflict |
| Catalog.AddMoviesLinesWellFormed | movie_recommender.py:205-232 | loading lines into a well-formed catalog leaves it well-formed, on success and on abort |
| Catalog.LoadMoviesWellFormed | movie_recommender.py:187-232 | the catalog `load_movies_file` builds from empty dictionaries is well-formed |
| Catalog.RepeatedMovieRow | movie_recommender.py:220-232 | a row equivalent to key k aborts when its id differs; with the same id, records, ids and key order stay unchanged and k is filed under the row's genre |
| Catalog.ExistingKeyedRow | movie_recommender.py:220-232 | the same, for a row already resolved to an existing key |
| Catalog.NewMovieRow | movie_recommender.py:211-232 | a row no key is equivalent to becomes a record under its name and its id, is appended to the key order and is filed under its genre |
| Catalog.NewKeyedRow | movie_recommender.py:211-232 | the same, for a row whose name is not yet a key |
| Catalog.ExtendsTransitive | movie_recommender.py:205-232 | keeping earlier entries composes over successive steps |
| Catalog.TrackGenreExtends | movie_recommender.py:229-232 | filing under a genre keeps every record, genre spelling and genre member |
| Catalog.AddKeyedRowExtends | movie_recommender.py:210-232 | an accepted resolved row keeps every earlier record, spelling and genre member |
| Catalog.AddMovieRowExtends | movie_recommender.py:206-232 | an accepted row keeps every earlier entry (first display form kept) |
| Catalog.AddMoviesLineExtends | movie_recommender.py:205-232 | an accepted line keeps every earlier entry |
| Catalog.LoadKeepsEarlierEntries | movie_recommender.py:205-232 | a load never changes or removes a record, a genre spelling or a genre member that was there before |
| Catalog.FirstSpellingOfGenre | movie_recommender.py:232 | the first accepted row of a genre key records its spelling as the key's display form |
| Catalog.MoviesStepReportsLine | movie_recommender.py:149-226 | every movies-line error names the line it occurred at |
| Catalog.LoadMoviesStopsAtError | movie_recommender.py:199-232 | a failed load reports a non-blank line number; the catalog left is the successful load of the lines before it; that line fails against it |
| Ratings.UnknownMovieAborts | movie_recommender.py:260-270 | a row aborts exactly when no catalog key is the same movie as its name, and then with the unknown-movie error |
| Ratings.RatingsStepReportsLine | movie_recommender.py:255-270 | every ratings-line error names its line |
| Ratings.LoadRatingsStopsAtError | movie_recommender.py:247-279 | a failed load reports a non-blank line number; the indexes left are the successful load of the lines before it; that line fails against them |
| Ratings.NoRatingsIndexed | movie_recommender.py:253 | empty indexes and an empty seen set satisfy the index invariant |
| Ratings.AddResolvedRatingMovieLists | movie_recommender.py:272-279 | recording a rating keeps every movie list non-empty, keyed by a catalog name, in [0, 5] and free of repeated users |
| Ratings.AddResolvedRatingIndexesMatch | movie_recommender.py:272-279 | recording a rating keeps the two indexes holding the same triples |
| Ratings.AddResolvedRatingIndexed | movie_recommender.py:272-279 | recording a rating keeps the whole index invariant |
| Ratings.AddRatingsLineIndexed | movie_recommender.py:255-279 | an accepted ratings line keeps the index invariant |
| Ratings.LoadLinesIndexed | movie_recommender.py:255-279 | loading ratings lines keeps the index invariant, on success and on abort |
| Ratings.LoadRatingsIndexed | movie_recommender.py:235-279 | after a load into empty indexes the movie lists are valid, no user map is empty, and a (user, movie, rating) triple is in `RATINGS_BY_MOVIE` exactly when it is in `RATINGS_BY_USER` |
| Ratings.KeepsFirstTransitive | movie_recommender.py:272-279 | keep-first composes over successive lines |
| Ratings.AddResolvedRatingKeepsFirst | movie_recommender.py:272-279 | recording a rating never replaces the rating of a pair already seen and only appends to movie lists |
| Ratings.LoadLinesKeepsFirst | movie_recommender.py:255-279 | a load never replaces a recorded rating of a seen pair and only appends to movie lists |
| Ratings.AddRatingsLineSeen | movie_recommender.py:272-276 | an accepted line adds exactly its (user, canonical movie) pair to the seen set |
| Ratings.LoadLinesSeen | movie_recommender.py:253-276 | the seen set grows only by the pairs of the lines read, and by all of them on success |
| Ratings.FirstRatingStep | movie_recommender.py:272-279 | a line whose pair is unseen is recorded with its rating |
| Ratings.SeenRatingSurvives | movie_recommender.py:272-279 | a recorded rating of a seen pair survives every later line |
| Ratings.FirstRatingFrom | movie_recommender.py:272-279 | the first line of an unseen pair leaves its rating in `RATINGS_BY_USER` at the end of the load |
| Ratings.FirstRatingKept | movie_recommender.py:253-279 | after a successful load, the rating kept for a (user, movie) pair in both indexes is the one on the first line with that pair |
| Ratings.FirstRatingKeptByUser | movie_recommender.py:253-279 | the same for `RATINGS_BY_USER` |
| Ratings.IndexedByMovie | movie_recommender.py:278-279 | under the invariant, every user entry appears in the movie's list |
| Ratings.RepeatedLineDropped | movie_recommender.py:272-276 | two lines by one user for case variants of one movie keep only the first rating |
| UserIds.Least | movie_recommender.py:282 | the least id of a non-empty set |
| UserIds.SortedIds | movie_recommender.py:282 | `USER_IDS` is strictly increasing and holds exactly the given ids |
| Stats.SumRatingsBounds | movie_recommender.py:293 | the sum of ratings in [0, 5] lies between 0 and 5 times their number |
| Stats.SetSumBounds | movie_recommender.py:314 | a sum of values in [0, 5] over a set lies between 0 and 5 times its size |
| Stats.SetCountAtLeastSize | movie_recommender.py:315 | a sum of positive counts over a set is at least its size |
| Stats.MovieStatsStep | movie_recommender.py:290-295 | visiting a movie adds its entry exactly when its list is non-empty |
| Stats.MeanBounds | movie_recommender.py:293-295 | a movie's mean lies in [0, 5] and its count is at least 1 |
| Stats.MovieStatsBounds | movie_recommender.py:285-295 | there is an entry exactly for the movies with a non-empty list; each mean is in [0, 5] and each count is the list's length |
| Stats.RatedInAdd | movie_recommender.py:307-311 | visiting a movie adds it to the genre's rated movies exactly when it has a positive count |
| Stats.MeansStep | movie_recommender.py:307-311 | visiting a movie appends its mean and adds its count exactly when it has a positive count |
| Stats.GenreStatOfMeans | movie_recommender.py:305-316 | the gathered means are non-empty exactly when the genre has a rated movie, and then give its entry: mean of movie means, sum of counts |
| Stats.GenreStatsStep | movie_recommender.py:304-316 | visiting a genre adds its entry exactly when it has a rated movie |
| Stats.GenreStatBounds | movie_recommender.py:312-316 | a genre's mean of means lies in [0, 5] and its total is at least its number of rated movies |
| Stats.AggregateCounts | movie_recommender.py:343 | every entry of `agg` has a count of at least 1 |
| Stats.GenreSumStep | movie_recommender.py:335-336 | a visited movie adds its rating to its genre's sum and one to its count |
| Stats.AggregateStep | movie_recommender.py:330-336 | one visited catalog movie updates its genre's entry to (s + r, c + 1), starting from (0.0, 0) |
| Stats.AggregateStepKeys | movie_recommender.py:334-336 | after the step, the keys of `agg` are the old keys plus the movie's genre |
| Stats.AggregateStepAtGenre | movie_recommender.py:335-336 | after the step, the movie's genre holds (s + r, c + 1) |
| Stats.AggregateOthers | movie_recommender.py:334-336 | after the step, every other genre is unchanged |
| Stats.AggregateSkip | movie_recommender.py:331-333 | a rated name without a catalog record leaves `agg` unchanged |
| Stats.AggregateKeys | movie_recommender.py:329-336 | the keys of `agg` are the genres of the user's rated catalog movies |
| Stats.AggregateEntry | movie_recommender.py:330-336 | each entry of `agg` is the sum and number of the user's ratings in that genre |
| Stats.AggregateAtGenre | movie_recommender.py:335-336 | the stepped genre's entry in terms of the earlier movies of that genre |
| Stats.AggregateCandidates | movie_recommender.py:342-343 | the candidates are exactly the user's genres, all with positive counts, each (g, s / c, c) |
| Stats.FirstOutsideStart | movie_recommender.py:342-347 | the minimum search can start from any candidate |
| Stats.FirstOutsideKeep | movie_recommender.py:342-347 | a candidate that does not sort before the current best leaves it the best |
| Stats.FirstOutsideReplace | movie_recommender.py:342-347 | a candidate that sorts before the current best becomes the best |
| Stats.FirstCandidateIsTop | movie_recommender.py:341-348 | a candidate no other candidate sorts before is the user's top genre |
| Stats.GenreKeysDistinct | movie_recommender.py:344 | over a well-formed catalog, two different genres of a user never have the same sort key |
| Stats.TopGenreUnique | movie_recommender.py:341-348 | over a well-formed catalog the top genre is unique, so `sorted(...)[0]` is determined |
| Stats.TopGenreBounds | movie_recommender.py:341-348 | the top genre's mean lies in [0, 5] and its count is at least 1 |
| Order.RankLtIrreflexive | movie_recommender.py:428-437 | no key sorts before itself |
| Order.RankLtTransitive | movie_recommender.py:428-437 | the tuple order on (number, count, text) keys is transitive |
| Order.RankLtTotal | movie_recommender.py:428-437 | of two different keys one sorts before the other |
| Order.MovieKeyLtIrreflexive | movie_recommender.py:414-425 | no movie key sorts before itself |
| Order.MovieKeyLtTransitive | movie_recommender.py:414-425 | the four-field movie-key order is transitive |
| Order.MovieKeyLtTotal | movie_recommender.py:414-425 | of two different movie keys one sorts before the other |
| Ranking.MovieSortKeysDistinct | movie_recommender.py:414-425 | two different catalog movies never share the name field of their keys |
| Ranking.GenreSortKeysDistinct | movie_recommender.py:428-437 | two different genre keys of a well-formed catalog never share a sort key |
| Ranking.InsertByKey | movie_recommender.py:602 | inserting by key keeps the list in key order, adds exactly the one name and adds no repetition |
| Ranking.SortByKey | movie_recommender.py:602 | the sorted candidates are in key order, repetition-free, and exactly the genre's movies |
| Ranking.Unseen | movie_recommender.py:604 | the unseen list holds exactly the candidates the user has not rated |
| Ranking.UnseenOrdered | movie_recommender.py:604 | filtering keeps key order |
| Ranking.UnseenDistinct | movie_recommender.py:604 | filtering adds no repetition |
| Ranking.PrefixOrderedDistinct | movie_recommender.py:610 | the first n of an ordered repetition-free list are ordered and repetition-free |
| Ranking.FirstThreeUnseen | movie_recommender.py:601-610 | `unseen[:3]` of the sorted genre movies is a recommendation: at most 3, in the genre, unrated, repetition-free, in key order, and no unrated movie left out unless three were taken and none of them sorts after it |
| Recommender.Session.constructor | movie_recommender.py:44-55 | a new session has every dictionary and list empty |
| Recommender.Session.ClearCatalog | movie_recommender.py:118-129 | the four catalog dictionaries become empty and nothing else changes |
| Recommender.Session.ClearRatings | movie_recommender.py:118-129 | the ratings dictionaries and `USER_IDS` become empty and nothing else changes |
| Recommender.Session.ClearDerived | movie_recommender.py:118-129 | the statistics and the top-genre cache become empty and nothing else changes |
| Recommender.Session.ClearGlobals | movie_recommender.py:118-129 | every dictionary and list is empty |
| Recommender.Session.ScanNames | movie_recommender.py:260-264 | the loop over the keys in insertion order finds the first key that is the same movie |
| Recommender.Session.TrackGenreInPlace | movie_recommender.py:229-232 | the in-place `setdefault` updates give the catalog `TrackGenre` describes; nothing else changes |
| Recommender.Session.InsertRecordInPlace | movie_recommender.py:211-219 | the in-place insert gives the catalog `InsertRecord` describes; nothing else changes |
| Recommender.Session.AddKeyedRowInPlace | movie_recommender.py:210-232 | the row's in-place effect and error match the resolved-row function; an abort changes nothing |
| Recommender.Session.AddMovieRowInPlace | movie_recommender.py:206-232 | the same for a parsed row, its name resolved by the scan |
| Recommender.Session.AddMoviesLineInPlace | movie_recommender.py:205-232 | the same for one non-blank movies line |
| Recommender.Session.AddMoviesLines | movie_recommender.py:205-232 | the loop over the lines leaves the catalog and error of the line fold (partial state on abort); ratings and statistics unchanged |
| Recommender.Session.LoadMoviesFile | movie_recommender.py:199-232 | `load_movies_file` on the file's lines: the empty-file error, or the fold over the non-blank lines |
| Recommender.Session.AddRatingRowInPlace | movie_recommender.py:258-279 | one parsed rating updates both indexes and the seen set as the row function says; an unknown movie changes nothing |
| Recommender.Session.AddRatingsLineInPlace | movie_recommender.py:255-279 | the same for one non-blank ratings line |
| Recommender.Session.AddRatingsLines | movie_recommender.py:253-279 | the loop leaves the indexes and the error of the ratings fold, with the seen set starting empty |
| Recommender.Session.SortUserIds | movie_recommender.py:282 | `USER_IDS` becomes the sorted user ids |
| Recommender.Session.LoadRatingsFile | movie_recommender.py:247-282 | `load_ratings_file`: the indexes and error of the fold over the non-blank lines; sorted `USER_IDS` on success, unchanged on abort |
| Recommender.Session.MovieStatsOfRatings | movie_recommender.py:289-295 | the loop over `RATINGS_BY_MOVIE` computes the movie statistics |
| Recommender.Session.ComputeMovieStats | movie_recommender.py:285-295 | `MOVIE_STATS` becomes the movie statistics of the ratings; nothing else changes |
| Recommender.Session.RatedMeans | movie_recommender.py:305-311 | the inner loop gathers the means and the summed counts of the genre's rated movies |
| Recommender.Session.GenreStatsOfMovies | movie_recommender.py:303-316 | the loop over `GENRES` computes the genre statistics |
| Recommender.Session.ComputeGenreStats | movie_recommender.py:298-316 | `GENRE_STATS` becomes the genre statistics; nothing else changes |
| Recommender.Session.AggregateByGenre | movie_recommender.py:329-336 | the loop over the user's ratings builds `agg` |
| Recommender.Session.AddToAggregate | movie_recommender.py:331-336 | one loop step extends `agg` by the visited movie |
| Recommender.Session.PickTopGenre | movie_recommender.py:341-347 | the minimum search returns a candidate no candidate sorts before |
| Recommender.Session.TopGenreOf | movie_recommender.py:329-348 | none exactly when the user rated no catalog movie, otherwise the user's top genre |
| Recommender.Session.ComputeUserTopGenreFor | movie_recommender.py:646-667 | the cache gains the user's top genre when the user rated a catalog movie, is unchanged otherwise, and no other entry changes |
| Recommender.Session.TopGenresOfUsers | movie_recommender.py:326-348 | the loop over users builds a cache with an entry exactly for the users with a rated catalog movie, each their top genre |
| Recommender.Session.ComputeUserTopGenreCache | movie_recommender.py:319-348 | `USER_TOP_GENRE` becomes that cache |
| Recommender.Session.SelectRecommendations | movie_recommender.py:601-610 | the selection is a recommendation from the genre's movies for the user's rated set under `_movie_sort_key` |
| Recommender.Session.RecommendFor | movie_recommender.py:586-610 | the top genre is the cached one, computed when missing; no other user's cache entry is added, removed or changed, and a consistent cache stays consistent; with a consistent cache it exists exactly when the user rated a catalog movie and is their top genre; the recommendations satisfy the selection contract |

## Left out

- File I/O: `os.path.isfile`, `open`, UTF-8 decoding, byte-order marks and newline translation. The loaders take the file's lines as a sequence of strings, and the missing-file error is not modelled.
- The console: `load_all_with_prompt`, the `feature_*` printing and menus, `main_menu`, `_back_or_quit`, `_print_user_list`, `main` and `sys.exit`. They are interactive prompting and process control. Only the selection part of `feature_recommend_movies` is modelled, for a user id already validated.
- `_strip_int_like`, `_spinner_one_line` and `_fmt_avg`: menu input parsing, terminal animation and two-decimal display formatting.
- Text.LowerChar: lower-cases only the Basic Latin and Latin-1 capitals. Python's full Unicode case mapping (including mappings that change length) is not modelled.
- Text.ParseInt and Text.ParseFloat: accept ASCII digits only. Underscore separators and non-ASCII digits that Python's `int()`/`float()` also accept are not modelled.
- Ratings and means are exact reals, not IEEE doubles. Rounding of `sum / count` is not modelled, so equal-mean ties are exact. Rounding while parsing is not modelled either: Python reads `5.0000000000000001` as 5.0 and accepts it, while `Text.ParseFloat` keeps the exact value, so the model rejects that line with `RatingOutOfBounds`.
- Iteration order of Python sets and dicts. The statistics loops and the top-genre loops visit keys in an unspecified order, which does not affect their results. `MOVIES_BY_NAME`'s key order is kept, as the `names` sequence, because the canonical-name scan depends on it.
- `sorted(...)` of genre candidates followed by `[0]` is modelled as a minimum search. Its result is the first element of that sort: the key order is total and over a well-formed catalog no two candidates share a key (Stats.TopGenreUnique).
- `sorted(GENRES[g], key=_movie_sort_key)` is modelled as an insertion sort. Any correct sort gives the same list, since movie keys of different catalog movies differ (Ranking.MovieSortKeysDistinct).
- Recommender.Session.ComputeMovieStats, ComputeGenreStats and ComputeUserTopGenreCache: clear the dictionary and fill it entry by entry in the source. Here each loop builds the new dictionary in a local map and assigns the field once. The final state is the same.
- Recommender.Session.RecommendFor: states the top-genre property only when the cache was consistent beforehand or held no entry for the user. A stale cache entry is returned as it is, as the source does.
- Stats.MeanBounds, Stats.GenreStatBounds and Stats.TopGenreBounds: state their bounds for ratings in [0, 5], the range the parser enforces, not for arbitrary bounds.
- Tie order between equal sort keys of a non-well-formed catalog. Only catalogs built by the loader are considered, and in those keys never tie.
