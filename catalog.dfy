/**
 * The movies loader (load_movies_file) as a function of the catalog it starts from
 * and the lines it reads: MOVIES_BY_ID, MOVIES_BY_NAME (with its key order), GENRES
 * and GENRE_ORIGINAL_CASE, and the invariants every catalog it builds satisfies.
 */
module Catalog {
  import opened Results
  import opened Text
  import opened Records

  /** A movie record: the id, the canonical display name, the genre as first written and its key. */
  datatype Movie = Movie(movieId: int, name: string, genreOriginal: string, genreNorm: string)

  /**
   * The four dictionaries the movies loader fills. `names` holds the keys of `byName`
   * in insertion order, the order in which the canonical-name scan visits them.
   */
  datatype Catalog = Catalog(
    byId: map<int, Movie>,
    byName: map<string, Movie>,
    names: seq<string>,
    genres: map<string, set<string>>,
    genreCase: map<string, string>)

  const EmptyCatalog := Catalog(map[], map[], [], map[], map[])

  /** Lines 230-232: file the canonical name under the genre key g; keep the first spelling of the key. */
  function TrackGenre(c: Catalog, g: string, genre: string, canon: string): Catalog {
    c.(genres := c.genres[g := (if g in c.genres then c.genres[g] else {}) + {canon}],
       genreCase := if g in c.genreCase then c.genreCase else c.genreCase[g := genre])
  }

  /** Lines 211-219: a new record under its name and its id; the name becomes the last key. */
  function InsertRecord(c: Catalog, m: Movie): Catalog {
    c.(byName := c.byName[m.name := m], byId := c.byId[m.movieId := m], names := c.names + [m.name])
  }

  /** One parsed row (lines 203-232), its name resolved to `canon` and its genre to the key `g`. */
  function AddKeyedRow(c: Catalog, row: MovieRow, canon: string, g: string, lineNo: nat): Result<Catalog, LoadError> {
    if canon !in c.byName then
      Ok(TrackGenre(InsertRecord(c, Movie(row.id, canon, row.genre, g)), g, row.genre, canon))
    else if c.byName[canon].movieId != row.id then Err(SameNameDifferentId(lineNo))
    else Ok(TrackGenre(c, g, row.genre, canon))
  }

  /**
   * One parsed row: a name with no equivalent key becomes a new record; an equivalent
   * key with another id aborts; with the same id the row only adds to the genre index.
   */
  function AddMovieRow(c: Catalog, row: MovieRow, lineNo: nat): Result<Catalog, LoadError> {
    AddKeyedRow(c, row, CanonicalName(c.names, row.name), NormGenre(row.genre), lineNo)
  }

  /** One non-blank line of the movies file. */
  function AddMoviesLine(c: Catalog, line: string, lineNo: nat): Result<Catalog, LoadError> {
    match ParseMoviesLine(line, lineNo)
    case Err(e) => Err(e)
    case Ok(row) => AddMovieRow(c, row, lineNo)
  }

  /** A line that parses is handled as its row. */
  lemma MoviesLineAccepted(c: Catalog, line: string, lineNo: nat, row: MovieRow)
    requires ParseMoviesLine(line, lineNo) == Ok(row)
    ensures AddMoviesLine(c, line, lineNo) == AddMovieRow(c, row, lineNo)
  {
  }

  /** A line that does not parse aborts with the parser's error. */
  lemma MoviesLineRejected(c: Catalog, line: string, lineNo: nat)
    requires ParseMoviesLine(line, lineNo).Err?
    ensures AddMoviesLine(c, line, lineNo) == Err(ParseMoviesLine(line, lineNo).error)
  {
  }

  /** load_movies_file on the lines the file yields. */
  function LoadMovies(c: Catalog, raw: seq<string>): Outcome<Catalog> {
    var lines := NonBlankLines(raw);
    if lines == [] then Outcome(c, Some(MoviesFileEmpty)) else LoadLines(AddMoviesLine, c, lines, 1)
  }

  // ---------------------------------------------------------------------------
  // The catalog invariant
  // ---------------------------------------------------------------------------

  /** A genre spelling as kept for display: stripped, non-empty, lower-casing to its key. */
  predicate DisplaysGenre(display: string, g: string) {
    display != [] && Strip(display) == display && Lower(display) == g
  }

  ghost predicate RecordOk(c: Catalog, k: string)
    requires k in c.byName
  {
    var m := c.byName[k];
    && m.name == k
    && CleanField(m.genreOriginal)
    && DisplaysGenre(m.genreOriginal, m.genreNorm)
    && m.genreNorm in c.genres && k in c.genres[m.genreNorm]
    && m.movieId in c.byId
  }

  ghost predicate IdOk(c: Catalog, id: int)
    requires id in c.byId
  {
    var m := c.byId[id];
    m.movieId == id && m.name in c.byName && c.byName[m.name] == m
  }

  /**
   * What every catalog built from the empty one satisfies: no two keys are the same
   * movie, each record is filed under its own name and genre, every id points at a
   * current record, every genre holds only catalog names and has a display spelling.
   */
  ghost predicate WellFormed(c: Catalog) {
    KeysListed(c) && RecordsOk(c) && IdsOk(c) && GenresOk(c)
  }

  /** The keys are pairwise different movies, listed once each in `names`. */
  ghost predicate KeysListed(c: Catalog) {
    && PairwiseDistinctMovies(c.names)
    && (forall k :: k in c.byName <==> k in c.names)
  }

  ghost predicate RecordsOk(c: Catalog) {
    forall k :: k in c.byName ==> RecordOk(c, k)
  }

  ghost predicate IdsOk(c: Catalog) {
    forall id :: id in c.byId ==> IdOk(c, id)
  }

  /** Genre sets hold catalog names, and every genre key has a display spelling. */
  ghost predicate GenresOk(c: Catalog) {
    && (forall g :: g in c.genres ==> g in c.genreCase && c.genres[g] <= c.byName.Keys)
    && (forall g :: g in c.genreCase ==> DisplaysGenre(c.genreCase[g], g))
  }

  /** Two different keys are never the same movie. */
  lemma KeysNotSameMovie(c: Catalog, a: string, b: string)
    requires KeysListed(c)
    requires a in c.byName && b in c.byName && a != b
    ensures !SameMovieName(a, b)
  {
    var i :| 0 <= i < |c.names| && c.names[i] == a;
    var j :| 0 <= j < |c.names| && c.names[j] == b;
    assert !SameMovieName(c.names[i], c.names[j]) && !SameMovieName(c.names[j], c.names[i]);
  }

  lemma EmptyCatalogWellFormed()
    ensures WellFormed(EmptyCatalog)
  {
  }

  /** The scan finds an existing key exactly when some key is the same movie, and otherwise keeps the name. */
  lemma CanonicalInCatalog(c: Catalog, name: string)
    requires WellFormed(c)
    ensures var canon := CanonicalName(c.names, name);
      && SameMovieName(canon, name)
      && (canon in c.byName <==> exists k :: k in c.byName && SameMovieName(k, name))
      && (forall k :: k in c.byName && SameMovieName(k, name) ==> k == canon)
      && ((forall k :: k in c.byName ==> !SameMovieName(k, name)) ==> canon == name)
  {
    CanonicalNameSpec(c.names, name);
    var canon := CanonicalName(c.names, name);
    forall k | k in c.byName && SameMovieName(k, name) ensures k == canon {
      var i :| 0 <= i < |c.names| && c.names[i] == k;
    }
    if exists k :: k in c.byName && SameMovieName(k, name) {
      var k :| k in c.byName && SameMovieName(k, name);
      var i :| 0 <= i < |c.names| && c.names[i] == k;
    } else {
      forall i | 0 <= i < |c.names| ensures !SameMovieName(c.names[i], name) {
        assert c.names[i] in c.byName;
      }
    }
  }

  /** A clean genre field displays its own key. */
  lemma CleanGenreDisplays(genre: string)
    requires CleanField(genre)
    ensures DisplaysGenre(genre, NormGenre(genre))
  {
  }

  lemma TrackGenreWellFormed(c: Catalog, g: string, genre: string, canon: string)
    requires DisplaysGenre(genre, g)
    requires canon in c.byName
    requires WellFormed(c)
    ensures WellFormed(TrackGenre(c, g, genre, canon))
  {
    TrackGenreKeysListed(c, g, genre, canon);
    TrackGenreRecordsOk(c, g, genre, canon);
    TrackGenreIdsOk(c, g, genre, canon);
    TrackGenreGenresOk(c, g, genre, canon);
  }

  lemma TrackGenreKeysListed(c: Catalog, g: string, genre: string, canon: string)
    requires KeysListed(c)
    ensures KeysListed(TrackGenre(c, g, genre, canon))
  {
    var c' := TrackGenre(c, g, genre, canon);
    assert c'.names == c.names && c'.byName == c.byName;
  }

  lemma TrackGenreGenresOk(c: Catalog, g: string, genre: string, canon: string)
    requires DisplaysGenre(genre, g)
    requires canon in c.byName
    requires GenresOk(c)
    ensures GenresOk(TrackGenre(c, g, genre, canon))
  {
  }

  lemma TrackGenreRecordsOk(c: Catalog, g: string, genre: string, canon: string)
    requires RecordsOk(c)
    ensures RecordsOk(TrackGenre(c, g, genre, canon))
  {
    var c' := TrackGenre(c, g, genre, canon);
    forall k | k in c'.byName ensures RecordOk(c', k) {
      assert RecordOk(c, k);
    }
  }

  lemma TrackGenreIdsOk(c: Catalog, g: string, genre: string, canon: string)
    requires IdsOk(c)
    ensures IdsOk(TrackGenre(c, g, genre, canon))
  {
    var c' := TrackGenre(c, g, genre, canon);
    forall id | id in c'.byId ensures IdOk(c', id) {
      assert IdOk(c, id);
    }
  }

  /** Inserting a record whose name is no existing movie, then tracking its genre. */
  lemma InsertWellFormed(c: Catalog, m: Movie)
    requires WellFormed(c)
    requires CleanField(m.genreOriginal) && DisplaysGenre(m.genreOriginal, m.genreNorm)
    requires forall k :: k in c.byName ==> !SameMovieName(k, m.name)
    ensures WellFormed(TrackGenre(InsertRecord(c, m), m.genreNorm, m.genreOriginal, m.name))
  {
    assert m.name !in c.byName by {
      SameMovieNameEquivalence(m.name, m.name, m.name);
    }
    var c1 := InsertRecord(c, m);
    InsertKeysListed(c, m);
    InsertRecordsOk(c, m);
    InsertIdsOk(c, m);
    InsertGenresOk(c, m);
    TrackGenreKeysListed(c1, m.genreNorm, m.genreOriginal, m.name);
    TrackNewRecordOk(c1, m);
    TrackGenreIdsOk(c1, m.genreNorm, m.genreOriginal, m.name);
    TrackGenreGenresOk(c1, m.genreNorm, m.genreOriginal, m.name);
  }

  lemma TrackNewRecordOk(c: Catalog, m: Movie)
    requires RecordsOkBut(c, m.name)
    requires m.name in c.byName && c.byName[m.name] == m && m.movieId in c.byId
    requires CleanField(m.genreOriginal) && DisplaysGenre(m.genreOriginal, m.genreNorm)
    ensures RecordsOk(TrackGenre(c, m.genreNorm, m.genreOriginal, m.name))
  {
    var c' := TrackGenre(c, m.genreNorm, m.genreOriginal, m.name);
    forall k | k in c'.byName ensures RecordOk(c', k) {
      if k != m.name {
        assert RecordOk(c, k);
      }
    }
  }

  lemma InsertKeysListed(c: Catalog, m: Movie)
    requires KeysListed(c)
    requires forall k :: k in c.byName ==> !SameMovieName(k, m.name)
    ensures KeysListed(InsertRecord(c, m))
  {
    var c' := InsertRecord(c, m);
    assert PairwiseDistinctMovies(c'.names) by {
      forall i, j | 0 <= i < j < |c'.names| ensures !SameMovieName(c'.names[i], c'.names[j]) {
        if j == |c.names| {
          assert c.names[i] in c.byName;
        } else {
          assert c'.names[i] == c.names[i] && c'.names[j] == c.names[j];
        }
      }
    }
    assert forall k :: k in c'.byName <==> k in c'.names by {
      assert forall k :: k in c'.names <==> k in c.names || k == m.name;
    }
  }

  /**
   * Every record but the new one is as before; the new one lacks only its genre entry,
   * which the TrackGenre that follows adds.
   */
  ghost predicate RecordsOkBut(c: Catalog, name: string) {
    forall k :: k in c.byName && k != name ==> RecordOk(c, k)
  }

  lemma InsertRecordsOk(c: Catalog, m: Movie)
    requires RecordsOk(c)
    requires m.name !in c.byName
    ensures RecordsOkBut(InsertRecord(c, m), m.name)
  {
    var c' := InsertRecord(c, m);
    forall k | k in c'.byName && k != m.name ensures RecordOk(c', k) {
      assert RecordOk(c, k);
    }
  }

  lemma InsertIdsOk(c: Catalog, m: Movie)
    requires IdsOk(c)
    requires m.name !in c.byName
    ensures IdsOk(InsertRecord(c, m))
  {
    var c' := InsertRecord(c, m);
    forall id | id in c'.byId ensures IdOk(c', id) {
      if id != m.movieId {
        assert IdOk(c, id);
      }
    }
  }

  lemma InsertGenresOk(c: Catalog, m: Movie)
    requires GenresOk(c)
    ensures GenresOk(InsertRecord(c, m))
  {
  }

  /** The keyed step keeps the invariant when `canon` is what the scan returns. */
  lemma AddKeyedRowWellFormed(c: Catalog, row: MovieRow, canon: string, g: string, lineNo: nat)
    requires WellFormed(c)
    requires CleanField(row.genre) && DisplaysGenre(row.genre, g)
    requires canon in c.byName || (canon == row.name && forall k :: k in c.byName ==> !SameMovieName(k, row.name))
    ensures var r := AddKeyedRow(c, row, canon, g, lineNo);
      r.Ok? ==> WellFormed(r.value)
  {
    if canon !in c.byName {
      InsertWellFormed(c, Movie(row.id, canon, row.genre, g));
    } else if c.byName[canon].movieId == row.id {
      TrackGenreWellFormed(c, g, row.genre, canon);
    }
  }

  /** Each accepted row keeps the catalog invariant. */
  lemma AddMovieRowWellFormed(c: Catalog, row: MovieRow, lineNo: nat)
    requires WellFormed(c)
    requires CleanField(row.genre)
    ensures AddMovieRow(c, row, lineNo).Ok? ==> WellFormed(AddMovieRow(c, row, lineNo).value)
  {
    CanonicalInCatalog(c, row.name);
    CleanGenreDisplays(row.genre);
    var canon := CanonicalName(c.names, row.name);
    if canon !in c.byName {
      assert canon == row.name;
    }
    AddKeyedRowWellFormed(c, row, canon, NormGenre(row.genre), lineNo);
  }

  /** An error from one line is reported at that line. */
  lemma AddMoviesLineErrorLine(c: Catalog, line: string, lineNo: nat)
    ensures var r := AddMoviesLine(c, line, lineNo);
      r.Err? ==> r.error.HasLine() && r.error.line == lineNo
  {
    match ParseMoviesLine(line, lineNo)
    case Err(e) =>
      MoviesLineRejected(c, line, lineNo);
    case Ok(row) =>
      MoviesLineAccepted(c, line, lineNo, row);
      AddKeyedRowError(c, row, CanonicalName(c.names, row.name), NormGenre(row.genre), lineNo);
  }

  /** The only error a parsed row can raise is the id conflict, at its own line. */
  lemma AddKeyedRowError(c: Catalog, row: MovieRow, canon: string, g: string, lineNo: nat)
    ensures var r := AddKeyedRow(c, row, canon, g, lineNo);
      r.Err? ==> r.error == SameNameDifferentId(lineNo)
  {
  }

  /** Loading keeps the invariant, whether it completes or stops at a bad line. */
  lemma {:induction false} AddMoviesLinesWellFormed(c: Catalog, lines: seq<string>, lineNo: nat)
    requires WellFormed(c)
    ensures WellFormed(LoadLines(AddMoviesLine, c, lines, lineNo).state)
    decreases |lines|
  {
    if lines != [] {
      match ParseMoviesLine(lines[0], lineNo)
      case Err(e) =>
      case Ok(row) =>
        AddMovieRowWellFormed(c, row, lineNo);
        if AddMovieRow(c, row, lineNo).Ok? {
          AddMoviesLinesWellFormed(AddMovieRow(c, row, lineNo).value, lines[1..], lineNo + 1);
        }
    }
  }

  /** Every catalog the movies loader leaves, complete or partial, satisfies the invariant. */
  lemma LoadMoviesWellFormed(raw: seq<string>)
    ensures WellFormed(LoadMovies(EmptyCatalog, raw).state)
  {
    EmptyCatalogWellFormed();
    var lines := NonBlankLines(raw);
    if lines != [] {
      AddMoviesLinesWellFormed(EmptyCatalog, lines, 1);
    }
  }

  // ---------------------------------------------------------------------------
  // Keep-first and conflicts
  // ---------------------------------------------------------------------------

  /**
   * A row whose name is the same movie as an existing key aborts when its id differs;
   * with the same id it changes no record, no id entry and no key, and only files the
   * existing key under the row's genre.
   */
  lemma RepeatedMovieRow(c: Catalog, row: MovieRow, lineNo: nat, k: string)
    requires WellFormed(c)
    requires k in c.byName && SameMovieName(k, row.name)
    ensures c.byName[k].movieId != row.id ==> AddMovieRow(c, row, lineNo) == Err(SameNameDifferentId(lineNo))
    ensures c.byName[k].movieId == row.id ==>
      var r := AddMovieRow(c, row, lineNo);
      && r.Ok?
      && r.value.byName == c.byName && r.value.byId == c.byId && r.value.names == c.names
      && NormGenre(row.genre) in r.value.genres && k in r.value.genres[NormGenre(row.genre)]
  {
    CanonicalInCatalog(c, row.name);
    assert CanonicalName(c.names, row.name) == k;
    ExistingKeyedRow(c, row, k, NormGenre(row.genre), lineNo);
  }

  /** A row resolved to an existing key: a conflict when the ids differ, else only a genre entry. */
  lemma ExistingKeyedRow(c: Catalog, row: MovieRow, canon: string, g: string, lineNo: nat)
    requires canon in c.byName
    ensures c.byName[canon].movieId != row.id ==> AddKeyedRow(c, row, canon, g, lineNo) == Err(SameNameDifferentId(lineNo))
    ensures c.byName[canon].movieId == row.id ==>
      var r := AddKeyedRow(c, row, canon, g, lineNo);
      && r.Ok?
      && r.value.byName == c.byName && r.value.byId == c.byId && r.value.names == c.names
      && g in r.value.genres && canon in r.value.genres[g]
  {
  }

  /**
   * A row whose name is not the same movie as any key becomes the record for that
   * name (overwriting any record filed under the same id in byId).
   */
  lemma NewMovieRow(c: Catalog, row: MovieRow, lineNo: nat)
    requires WellFormed(c)
    requires forall k :: k in c.byName ==> !SameMovieName(k, row.name)
    ensures var r := AddMovieRow(c, row, lineNo);
      var m := Movie(row.id, row.name, row.genre, NormGenre(row.genre));
      && r.Ok?
      && r.value.byName == c.byName[row.name := m]
      && r.value.byId == c.byId[row.id := m]
      && r.value.names == c.names + [row.name]
      && NormGenre(row.genre) in r.value.genres && row.name in r.value.genres[NormGenre(row.genre)]
  {
    CanonicalInCatalog(c, row.name);
    assert CanonicalName(c.names, row.name) == row.name;
    assert row.name !in c.byName;
    NewKeyedRow(c, row, NormGenre(row.genre), lineNo);
  }

  /** A row resolved to a name that is not a key becomes a new record under that name and id. */
  lemma NewKeyedRow(c: Catalog, row: MovieRow, g: string, lineNo: nat)
    requires row.name !in c.byName
    ensures var r := AddKeyedRow(c, row, row.name, g, lineNo);
      var m := Movie(row.id, row.name, row.genre, g);
      && r.Ok?
      && r.value.byName == c.byName[row.name := m]
      && r.value.byId == c.byId[row.id := m]
      && r.value.names == c.names + [row.name]
      && g in r.value.genres && row.name in r.value.genres[g]
  {
  }

  /** c' keeps every record, every genre spelling and every genre member of c. */
  ghost predicate Extends(c: Catalog, c': Catalog) {
    && (forall k :: k in c.byName ==> k in c'.byName && c'.byName[k] == c.byName[k])
    && (forall g :: g in c.genreCase ==> g in c'.genreCase && c'.genreCase[g] == c.genreCase[g])
    && (forall g :: g in c.genres ==> g in c'.genres && c.genres[g] <= c'.genres[g])
  }

  lemma ExtendsTransitive(a: Catalog, b: Catalog, c: Catalog)
    requires Extends(a, b) && Extends(b, c)
    ensures Extends(a, c)
  {
  }

  lemma TrackGenreExtends(c: Catalog, g: string, genre: string, canon: string)
    ensures Extends(c, TrackGenre(c, g, genre, canon))
  {
  }

  lemma AddKeyedRowExtends(c: Catalog, row: MovieRow, canon: string, g: string, lineNo: nat)
    ensures var r := AddKeyedRow(c, row, canon, g, lineNo);
      r.Ok? ==> Extends(c, r.value)
  {
    if canon !in c.byName {
      var c1 := InsertRecord(c, Movie(row.id, canon, row.genre, g));
      assert Extends(c, c1);
      TrackGenreExtends(c1, g, row.genre, canon);
      ExtendsTransitive(c, c1, TrackGenre(c1, g, row.genre, canon));
    } else {
      TrackGenreExtends(c, g, row.genre, canon);
    }
  }

  lemma AddMovieRowExtends(c: Catalog, row: MovieRow, lineNo: nat)
    ensures var r := AddMovieRow(c, row, lineNo);
      r.Ok? ==> Extends(c, r.value)
  {
    AddKeyedRowExtends(c, row, CanonicalName(c.names, row.name), NormGenre(row.genre), lineNo);
  }

  lemma AddMoviesLineExtends(c: Catalog, line: string, lineNo: nat)
    ensures var r := AddMoviesLine(c, line, lineNo);
      r.Ok? ==> Extends(c, r.value)
  {
    var p := ParseMoviesLine(line, lineNo);
    if p.Ok? {
      AddMovieRowExtends(c, p.value, lineNo);
    }
  }

  /**
   * Nothing the loader has recorded is ever replaced: records stay as first written
   * (keep-first), a genre keeps its first spelling, and genre sets only grow.
   */
  lemma {:induction false} LoadKeepsEarlierEntries(c: Catalog, lines: seq<string>, lineNo: nat)
    ensures Extends(c, LoadLines(AddMoviesLine, c, lines, lineNo).state)
    decreases |lines|
  {
    if lines != [] {
      var r := AddMoviesLine(c, lines[0], lineNo);
      AddMoviesLineExtends(c, lines[0], lineNo);
      if r.Ok? {
        LoadKeepsEarlierEntries(r.value, lines[1..], lineNo + 1);
      }
    }
  }

  /** A genre key gets as its display spelling the genre text of the row that first used it. */
  lemma FirstSpellingOfGenre(c: Catalog, row: MovieRow, lineNo: nat)
    requires NormGenre(row.genre) !in c.genreCase
    ensures var r := AddMovieRow(c, row, lineNo);
      r.Ok? ==> r.value.genreCase[NormGenre(row.genre)] == row.genre
  {
  }

  lemma MoviesStepReportsLine()
    ensures ReportsLine(AddMoviesLine)
  {
    forall c, line, n ensures AddMoviesLine(c, line, n).Err? ==> AddMoviesLine(c, line, n).error.HasLine() && AddMoviesLine(c, line, n).error.line == n {
      AddMoviesLineErrorLine(c, line, n);
    }
  }

  /**
   * No atomicity: when the movies loader stops, the error names a line, every earlier
   * line was applied without error, and the catalog left behind is exactly what those
   * lines built.
   */
  lemma LoadMoviesStopsAtError(raw: seq<string>)
    ensures var lines := NonBlankLines(raw);
      var o := LoadMovies(EmptyCatalog, raw);
      o.error.Some? && lines != [] ==>
        var e := o.error.value;
        && e.HasLine() && 1 <= e.line <= |lines|
        && LoadLines(AddMoviesLine, EmptyCatalog, lines[..e.line - 1], 1) == Outcome(o.state, None)
        && AddMoviesLine(o.state, lines[e.line - 1], e.line) == Err(e)
  {
    MoviesStepReportsLine();
    LoadLinesStopsAtError(AddMoviesLine, EmptyCatalog, NonBlankLines(raw), 1);
  }
}
