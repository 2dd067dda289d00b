/**
 * The ratings loader (load_ratings_file) as a function of the catalog's keys and the
 * lines it reads: RATINGS_BY_MOVIE, RATINGS_BY_USER and the set of (user, movie)
 * pairs already seen, with the keep-first policy and the agreement of the two indexes.
 */
module Ratings {
  import opened Results
  import opened Text
  import opened Records

  /**
   * What the loop of load_ratings_file updates: the two indexes, which it extends in
   * place, and seen_user_movie, which starts empty at every call.
   */
  datatype RatingsState = RatingsState(
    byMovie: map<string, seq<(int, real)>>,
    byUser: map<int, map<string, real>>,
    seen: set<(int, string)>)

  const NoRatings := RatingsState(map[], map[], {})

  /** Lines 272-279: record a rating of the canonical movie `canon`, unless the pair was seen before. */
  function AddResolvedRating(st: RatingsState, user: int, canon: string, rating: real): RatingsState {
    if (user, canon) in st.seen then st
    else RatingsState(
      st.byMovie[canon := (if canon in st.byMovie then st.byMovie[canon] else []) + [(user, rating)]],
      st.byUser[user := (if user in st.byUser then st.byUser[user] else map[])[canon := rating]],
      st.seen + {(user, canon)})
  }

  /** Lines 258-279: resolve the row's name against the catalog keys; an unknown movie aborts. */
  function AddRatingRow(names: seq<string>, st: RatingsState, row: RatingRow, lineNo: nat): Result<RatingsState, LoadError> {
    match FindCanonical(names, row.name)
    case None => Err(UnknownMovie(lineNo))
    case Some(canon) => Ok(AddResolvedRating(st, row.user, canon, row.rating))
  }

  /** One non-blank line of the ratings file, against the catalog keys `names`. */
  function AddRatingsLine(names: seq<string>, st: RatingsState, line: string, lineNo: nat): Result<RatingsState, LoadError> {
    match ParseRatingsLine(line, lineNo)
    case Err(e) => Err(e)
    case Ok(row) => AddRatingRow(names, st, row, lineNo)
  }

  function RatingsStep(names: seq<string>): (RatingsState, string, nat) -> Result<RatingsState, LoadError> {
    (st: RatingsState, line: string, n: nat) => AddRatingsLine(names, st, line, n)
  }

  /** A line that parses is handled as its row. */
  lemma RatingsLineAccepted(names: seq<string>, st: RatingsState, line: string, lineNo: nat, row: RatingRow)
    requires ParseRatingsLine(line, lineNo) == Ok(row)
    ensures RatingsStep(names)(st, line, lineNo) == AddRatingRow(names, st, row, lineNo)
  {
  }

  /** A line that does not parse aborts with the parser's error. */
  lemma RatingsLineRejected(names: seq<string>, st: RatingsState, line: string, lineNo: nat)
    requires ParseRatingsLine(line, lineNo).Err?
    ensures RatingsStep(names)(st, line, lineNo) == Err(ParseRatingsLine(line, lineNo).error)
  {
  }

  /** load_ratings_file on the lines the file yields, starting from the current indexes. */
  function LoadRatings(names: seq<string>, byMovie: map<string, seq<(int, real)>>, byUser: map<int, map<string, real>>, raw: seq<string>): Outcome<RatingsState> {
    var lines := NonBlankLines(raw);
    var st := RatingsState(byMovie, byUser, {});
    if lines == [] then Outcome(st, Some(RatingsFileEmpty)) else LoadLines(RatingsStep(names), st, lines, 1)
  }

  // ---------------------------------------------------------------------------
  // Errors
  // ---------------------------------------------------------------------------

  /** A rating aborts as an unknown movie exactly when no catalog key is the same movie as its name. */
  lemma UnknownMovieAborts(names: seq<string>, st: RatingsState, row: RatingRow, lineNo: nat)
    ensures AddRatingRow(names, st, row, lineNo).Err? <==> forall k :: k in names ==> !SameMovieName(k, row.name)
    ensures AddRatingRow(names, st, row, lineNo).Err? ==> AddRatingRow(names, st, row, lineNo).error == UnknownMovie(lineNo)
  {
    var i := FirstEquivalent(names, row.name);
    if i == |names| {
      forall k | k in names ensures !SameMovieName(k, row.name) {
        var j :| 0 <= j < |names| && names[j] == k;
      }
    }
  }

  lemma RatingsStepReportsLine(names: seq<string>)
    ensures ReportsLine(RatingsStep(names))
  {
    forall st, line, n ensures RatingsStep(names)(st, line, n).Err? ==>
      RatingsStep(names)(st, line, n).error.HasLine() && RatingsStep(names)(st, line, n).error.line == n
    {
      if ParseRatingsLine(line, n).Ok? {
        UnknownMovieAborts(names, st, ParseRatingsLine(line, n).value, n);
      }
    }
  }

  /**
   * No atomicity: when the ratings loader stops, the error names a line, every earlier
   * line was applied, and the indexes left behind are exactly what those lines built.
   */
  lemma LoadRatingsStopsAtError(names: seq<string>, raw: seq<string>)
    ensures var lines := NonBlankLines(raw);
      var o := LoadRatings(names, map[], map[], raw);
      o.error.Some? && lines != [] ==>
        var e := o.error.value;
        && e.HasLine() && 1 <= e.line <= |lines|
        && LoadLines(RatingsStep(names), NoRatings, lines[..e.line - 1], 1) == Outcome(o.state, None)
        && AddRatingsLine(names, o.state, lines[e.line - 1], e.line) == Err(e)
  {
    var lines := NonBlankLines(raw);
    if lines != [] {
      var o := LoadRatings(names, map[], map[], raw);
      assert o == LoadLines(RatingsStep(names), NoRatings, lines, 1);
      RatingsStepReportsLine(names);
      LoadLinesStopsAtError(RatingsStep(names), NoRatings, lines, 1);
    }
  }

  // ---------------------------------------------------------------------------
  // The index invariant
  // ---------------------------------------------------------------------------

  /** The triple (user, movie, rating) as RATINGS_BY_MOVIE holds it. */
  ghost predicate InByMovie(st: RatingsState, u: int, m: string, r: real) {
    m in st.byMovie && (u, r) in st.byMovie[m]
  }

  /** The triple (user, movie, rating) as RATINGS_BY_USER holds it. */
  ghost predicate InByUser(st: RatingsState, u: int, m: string, r: real) {
    u in st.byUser && m in st.byUser[u] && st.byUser[u][m] == r
  }

  /** Every movie list is non-empty, names a catalog key, and holds ratings in [0, 5] from distinct users. */
  ghost predicate MovieListsOk(names: seq<string>, st: RatingsState) {
    forall m :: m in st.byMovie ==>
      && m in names
      && st.byMovie[m] != []
      && (forall i :: 0 <= i < |st.byMovie[m]| ==> 0.0 <= st.byMovie[m][i].1 <= 5.0)
      && (forall i, j :: 0 <= i < j < |st.byMovie[m]| ==> st.byMovie[m][i].0 != st.byMovie[m][j].0)
  }

  /** Each entry of a movie list is in the user index, and each user entry is in the movie list. */
  ghost predicate IndexesMatch(st: RatingsState) {
    && (forall m, i :: m in st.byMovie && 0 <= i < |st.byMovie[m]| ==> InByUser(st, st.byMovie[m][i].0, m, st.byMovie[m][i].1))
    && (forall u, m :: u in st.byUser && m in st.byUser[u] ==> InByMovie(st, u, m, st.byUser[u][m]))
    && (forall u :: u in st.byUser ==> st.byUser[u] != map[])
  }

  /** seen_user_movie is exactly the set of pairs the user index holds. */
  ghost predicate SeenIsIndexed(st: RatingsState) {
    forall u, m :: (u, m) in st.seen <==> u in st.byUser && m in st.byUser[u]
  }

  ghost predicate Indexed(names: seq<string>, st: RatingsState) {
    MovieListsOk(names, st) && IndexesMatch(st) && SeenIsIndexed(st)
  }

  lemma NoRatingsIndexed(names: seq<string>)
    ensures Indexed(names, NoRatings)
  {
  }

  lemma AddResolvedRatingMovieLists(names: seq<string>, st: RatingsState, user: int, canon: string, rating: real)
    requires MovieListsOk(names, st) && IndexesMatch(st) && SeenIsIndexed(st)
    requires canon in names && 0.0 <= rating <= 5.0
    ensures MovieListsOk(names, AddResolvedRating(st, user, canon, rating))
  {
    if (user, canon) !in st.seen {
      var st' := AddResolvedRating(st, user, canon, rating);
      var old_ := if canon in st.byMovie then st.byMovie[canon] else [];
      assert st'.byMovie[canon] == old_ + [(user, rating)];
      forall i | 0 <= i < |old_| ensures old_[i].0 != user {
        assert InByUser(st, old_[i].0, canon, old_[i].1);
      }
    }
  }

  lemma AddResolvedRatingIndexesMatch(st: RatingsState, user: int, canon: string, rating: real)
    requires IndexesMatch(st) && SeenIsIndexed(st)
    ensures IndexesMatch(AddResolvedRating(st, user, canon, rating))
  {
    if (user, canon) !in st.seen {
      var st' := AddResolvedRating(st, user, canon, rating);
      forall m, i | m in st'.byMovie && 0 <= i < |st'.byMovie[m]|
        ensures InByUser(st', st'.byMovie[m][i].0, m, st'.byMovie[m][i].1)
      {
        if m != canon || i < |st'.byMovie[m]| - 1 {
          assert st'.byMovie[m][i] == st.byMovie[m][i];
          assert InByUser(st, st.byMovie[m][i].0, m, st.byMovie[m][i].1);
        }
      }
      forall u, m | u in st'.byUser && m in st'.byUser[u]
        ensures InByMovie(st', u, m, st'.byUser[u][m])
      {
        if u == user && m == canon {
          assert st'.byMovie[canon][|st'.byMovie[canon]| - 1] == (user, rating);
        } else {
          assert InByMovie(st, u, m, st.byUser[u][m]);
          assert st.byMovie[m] <= st'.byMovie[m];
        }
      }
    }
  }

  /** Each resolved rating keeps the invariant. */
  lemma AddResolvedRatingIndexed(names: seq<string>, st: RatingsState, user: int, canon: string, rating: real)
    requires Indexed(names, st)
    requires canon in names && 0.0 <= rating <= 5.0
    ensures Indexed(names, AddResolvedRating(st, user, canon, rating))
  {
    AddResolvedRatingMovieLists(names, st, user, canon, rating);
    AddResolvedRatingIndexesMatch(st, user, canon, rating);
  }

  lemma AddRatingsLineIndexed(names: seq<string>, st: RatingsState, line: string, lineNo: nat)
    requires Indexed(names, st)
    ensures var r := AddRatingsLine(names, st, line, lineNo);
      r.Ok? ==> Indexed(names, r.value)
  {
    match ParseRatingsLine(line, lineNo)
    case Err(e) =>
    case Ok(row) =>
      var k := FirstEquivalent(names, row.name);
      if k < |names| {
        AddResolvedRatingIndexed(names, st, row.user, names[k], row.rating);
      }
  }

  lemma {:induction false} LoadLinesIndexed(names: seq<string>, st: RatingsState, lines: seq<string>, lineNo: nat)
    requires Indexed(names, st)
    ensures Indexed(names, LoadLines(RatingsStep(names), st, lines, lineNo).state)
    decreases |lines|
  {
    if lines != [] {
      var r := AddRatingsLine(names, st, lines[0], lineNo);
      assert RatingsStep(names)(st, lines[0], lineNo) == r;
      AddRatingsLineIndexed(names, st, lines[0], lineNo);
      if r.Ok? {
        LoadLinesIndexed(names, r.value, lines[1..], lineNo + 1);
      }
    }
  }

  /**
   * Whatever the ratings loader leaves, complete or partial: every rated movie is a
   * catalog key with a non-empty list of ratings in [0, 5] from distinct users, and
   * RATINGS_BY_MOVIE and RATINGS_BY_USER hold exactly the same (user, movie, rating) triples.
   */
  lemma LoadRatingsIndexed(names: seq<string>, raw: seq<string>)
    ensures var st := LoadRatings(names, map[], map[], raw).state;
      && MovieListsOk(names, st)
      && (forall u :: u in st.byUser ==> st.byUser[u] != map[])
      && forall u, m, r :: InByMovie(st, u, m, r) <==> InByUser(st, u, m, r)
  {
    NoRatingsIndexed(names);
    var lines := NonBlankLines(raw);
    if lines != [] {
      LoadLinesIndexed(names, NoRatings, lines, 1);
    }
    var st := LoadRatings(names, map[], map[], raw).state;
    forall u, m, r ensures InByMovie(st, u, m, r) <==> InByUser(st, u, m, r) {
      if InByMovie(st, u, m, r) {
        var i :| 0 <= i < |st.byMovie[m]| && st.byMovie[m][i] == (u, r);
      }
    }
  }

  // ---------------------------------------------------------------------------
  // Keep-first
  // ---------------------------------------------------------------------------

  /**
   * st' keeps what st recorded for every seen pair: the pair stays seen with the same
   * rating, and every movie list only grows at its end.
   */
  ghost predicate KeepsFirst(st: RatingsState, st': RatingsState) {
    && st.seen <= st'.seen
    && (forall u, m :: (u, m) in st.seen && u in st.byUser && m in st.byUser[u] ==>
          u in st'.byUser && m in st'.byUser[u] && st'.byUser[u][m] == st.byUser[u][m])
    && (forall m :: m in st.byMovie ==> m in st'.byMovie && st.byMovie[m] <= st'.byMovie[m])
  }

  lemma KeepsFirstTransitive(a: RatingsState, b: RatingsState, c: RatingsState)
    requires KeepsFirst(a, b) && KeepsFirst(b, c)
    ensures KeepsFirst(a, c)
  {
    forall m | m in a.byMovie ensures a.byMovie[m] <= c.byMovie[m] {
      assert a.byMovie[m] <= b.byMovie[m] <= c.byMovie[m];
    }
  }

  lemma AddResolvedRatingKeepsFirst(st: RatingsState, user: int, canon: string, rating: real)
    ensures KeepsFirst(st, AddResolvedRating(st, user, canon, rating))
  {
  }

  lemma {:induction false} LoadLinesKeepsFirst(names: seq<string>, st: RatingsState, lines: seq<string>, lineNo: nat)
    ensures KeepsFirst(st, LoadLines(RatingsStep(names), st, lines, lineNo).state)
    decreases |lines|
  {
    if lines == [] {
      KeepsFirstTransitive(st, st, st);
    } else {
      var r := AddRatingsLine(names, st, lines[0], lineNo);
      assert RatingsStep(names)(st, lines[0], lineNo) == r;
      match ParseRatingsLine(lines[0], lineNo)
      case Err(e) =>
        AddResolvedRatingKeepsFirst(st, 0, [], 0.0);
        KeepsFirstTransitive(st, st, st);
      case Ok(row) =>
        var k := FirstEquivalent(names, row.name);
        if k < |names| {
          var st1 := AddResolvedRating(st, row.user, names[k], row.rating);
          AddResolvedRatingKeepsFirst(st, row.user, names[k], row.rating);
          LoadLinesKeepsFirst(names, st1, lines[1..], lineNo + 1);
          KeepsFirstTransitive(st, st1, LoadLines(RatingsStep(names), st1, lines[1..], lineNo + 1).state);
        } else {
          AddResolvedRatingKeepsFirst(st, 0, [], 0.0);
          KeepsFirstTransitive(st, st, st);
        }
    }
  }

  /** The (user, catalog movie) pair a line rates, when it parses and its movie resolves. */
  function LinePair(names: seq<string>, line: string, lineNo: nat): Option<(int, string)> {
    match ParseRatingsLine(line, lineNo)
    case Err(_) => None
    case Ok(row) =>
      match FindCanonical(names, row.name)
      case None => None
      case Some(m) => Some((row.user, m))
  }

  /** The pairs the lines rate, numbering them from lineNo. */
  function PairsOf(names: seq<string>, lines: seq<string>, lineNo: nat): set<(int, string)>
    decreases |lines|
  {
    if lines == [] then {}
    else
      (match LinePair(names, lines[0], lineNo) case None => {} case Some(p) => {p})
      + PairsOf(names, lines[1..], lineNo + 1)
  }

  lemma AddRatingsLineSeen(names: seq<string>, st: RatingsState, line: string, lineNo: nat)
    ensures var r := AddRatingsLine(names, st, line, lineNo);
      r.Ok? ==> LinePair(names, line, lineNo).Some? && r.value.seen == st.seen + {LinePair(names, line, lineNo).value}
  {
  }

  /**
   * seen_user_movie only ever holds pairs that some line rated; when the load runs to the
   * end it holds exactly the pairs the lines rated.
   */
  lemma {:induction false} LoadLinesSeen(names: seq<string>, st: RatingsState, lines: seq<string>, lineNo: nat)
    ensures var o := LoadLines(RatingsStep(names), st, lines, lineNo);
      && o.state.seen <= st.seen + PairsOf(names, lines, lineNo)
      && (o.error.None? ==> o.state.seen == st.seen + PairsOf(names, lines, lineNo))
    decreases |lines|
  {
    if lines != [] {
      var r := AddRatingsLine(names, st, lines[0], lineNo);
      assert RatingsStep(names)(st, lines[0], lineNo) == r;
      AddRatingsLineSeen(names, st, lines[0], lineNo);
      if r.Ok? {
        LoadLinesSeen(names, r.value, lines[1..], lineNo + 1);
      }
    }
  }

  /** The first line rating a pair records that line's rating for it. */
  lemma FirstRatingStep(names: seq<string>, st: RatingsState, line: string, lineNo: nat, u: int, m: string)
    requires LinePair(names, line, lineNo) == Some((u, m))
    requires (u, m) !in st.seen
    ensures var r := AddRatingsLine(names, st, line, lineNo);
      && r.Ok? && (u, m) in r.value.seen
      && InByUser(r.value, u, m, ParseRatingsLine(line, lineNo).value.rating)
  {
  }

  /** A recorded rating of a seen pair survives every later line. */
  lemma SeenRatingSurvives(names: seq<string>, st: RatingsState, lines: seq<string>, lineNo: nat, u: int, m: string, r: real)
    requires (u, m) in st.seen && InByUser(st, u, m, r)
    ensures InByUser(LoadLines(RatingsStep(names), st, lines, lineNo).state, u, m, r)
  {
    LoadLinesKeepsFirst(names, st, lines, lineNo);
  }

  /** The load from a state where the pair is unseen, starting at a line that rates it. */
  lemma FirstRatingFrom(names: seq<string>, st: RatingsState, lines: seq<string>, lineNo: nat, u: int, m: string)
    requires lines != [] && LinePair(names, lines[0], lineNo) == Some((u, m))
    requires (u, m) !in st.seen
    ensures InByUser(LoadLines(RatingsStep(names), st, lines, lineNo).state, u, m, ParseRatingsLine(lines[0], lineNo).value.rating)
  {
    var r1 := AddRatingsLine(names, st, lines[0], lineNo);
    FirstRatingStep(names, st, lines[0], lineNo, u, m);
    assert RatingsStep(names)(st, lines[0], lineNo) == r1;
    SeenRatingSurvives(names, r1.value, lines[1..], lineNo + 1, u, m, ParseRatingsLine(lines[0], lineNo).value.rating);
  }

  /**
   * Keep-first: when the ratings load completes, the rating it holds for user u and
   * movie m is the one on the first line that rates m by u; later lines for the same
   * pair, in whatever letter case, change nothing.
   */
  lemma FirstRatingKept(names: seq<string>, lines: seq<string>, j: nat, u: int, m: string)
    requires LoadLines(RatingsStep(names), NoRatings, lines, 1).error.None?
    requires j < |lines| && LinePair(names, lines[j], 1 + j) == Some((u, m))
    requires (u, m) !in PairsOf(names, lines[..j], 1)
    ensures var st := LoadLines(RatingsStep(names), NoRatings, lines, 1).state;
      var r := ParseRatingsLine(lines[j], 1 + j).value.rating;
      InByUser(st, u, m, r) && InByMovie(st, u, m, r)
  {
    var st := LoadLines(RatingsStep(names), NoRatings, lines, 1).state;
    var r := ParseRatingsLine(lines[j], 1 + j).value.rating;
    FirstRatingKeptByUser(names, lines, j, u, m);
    NoRatingsIndexed(names);
    LoadLinesIndexed(names, NoRatings, lines, 1);
    IndexedByMovie(names, st, u, m, r);
  }

  /** The user-index half of keep-first. */
  lemma FirstRatingKeptByUser(names: seq<string>, lines: seq<string>, j: nat, u: int, m: string)
    requires LoadLines(RatingsStep(names), NoRatings, lines, 1).error.None?
    requires j < |lines| && LinePair(names, lines[j], 1 + j) == Some((u, m))
    requires (u, m) !in PairsOf(names, lines[..j], 1)
    ensures InByUser(LoadLines(RatingsStep(names), NoRatings, lines, 1).state, u, m, ParseRatingsLine(lines[j], 1 + j).value.rating)
  {
    var step := RatingsStep(names);
    LoadLinesSplit(step, NoRatings, lines, j, 1);
    var o := LoadLines(step, NoRatings, lines[..j], 1);
    LoadLinesSeen(names, NoRatings, lines[..j], 1);
    assert lines[j..][0] == lines[j];
    FirstRatingFrom(names, o.state, lines[j..], 1 + j, u, m);
  }

  /** In an indexed state the user index and the movie lists hold the same triples. */
  lemma IndexedByMovie(names: seq<string>, st: RatingsState, u: int, m: string, r: real)
    requires Indexed(names, st) && InByUser(st, u, m, r)
    ensures InByMovie(st, u, m, r)
  {
  }

  /** A line that parses and resolves is applied as a resolved rating. */
  lemma ResolvedLine(names: seq<string>, st: RatingsState, line: string, lineNo: nat, row: RatingRow, canon: string)
    requires ParseRatingsLine(line, lineNo) == Ok(row)
    requires FindCanonical(names, row.name) == Some(canon)
    ensures RatingsStep(names)(st, line, lineNo) == Ok(AddResolvedRating(st, row.user, canon, row.rating))
  {
  }

  /**
   * Keep-first on two lines of the file format: a user rates a movie r1 stars and then,
   * under a name differing only in letter case, r2 stars; the second line is dropped.
   */
  lemma RepeatedLineDropped(a: string, b: string, r1: nat, r2: nat, u: int)
    requires CleanField(a) && CleanField(b) && SameMovieName(a, b) && r1 <= 5 && r2 <= 5
    ensures var lines := [RatingsLineText(a, r1, u), RatingsLineText(b, r2, u)];
      var o := LoadLines(RatingsStep([a]), NoRatings, lines, 1);
      && o.error.None?
      && o.state.byMovie == map[a := [(u, r1 as real)]]
      && o.state.byUser == map[u := map[a := r1 as real]]
  {
    SameMovieNameEquivalence(a, b, a);
    assert FindCanonical([a], a) == Some(a);
    assert FindCanonical([a], b) == Some(a);
    RatingsLineRoundTrip(a, r1, u, 1);
    RatingsLineRoundTrip(b, r2, u, 2);
    var l1, l2 := RatingsLineText(a, r1, u), RatingsLineText(b, r2, u);
    var st1 := AddResolvedRating(NoRatings, u, a, r1 as real);
    assert [] + [(u, r1 as real)] == [(u, r1 as real)];
    assert st1.byMovie == map[a := [(u, r1 as real)]];
    ResolvedLine([a], NoRatings, l1, 1, RatingRow(a, r1 as real, u), a);
    ResolvedLine([a], st1, l2, 2, RatingRow(b, r2 as real, u), a);
    LoadTwoLines(RatingsStep([a]), NoRatings, l1, l2, st1, st1);
  }

  /** "Foo (2000)" and "foo (2000)" are clean fields naming the same movie. */
  lemma ExampleSameMovie()
    ensures CleanField("Foo (2000)") && CleanField("foo (2000)")
    ensures SameMovieName("Foo (2000)", "foo (2000)")
  {
    ExampleTitleClean();
    ExampleOtherCaseClean();
    SameMovieNameCharwise("Foo (2000)", "foo (2000)");
  }

  lemma ExampleTitleClean()
    ensures CleanField("Foo (2000)")
  {
    TrimmedFieldIsClean("Foo (2000)");
  }

  lemma ExampleOtherCaseClean()
    ensures CleanField("foo (2000)")
  {
    TrimmedFieldIsClean("foo (2000)");
  }
}
