/**
 * One line of the movies file (genre|movie_id|movie_name) or of the ratings file
 * (movie_name|rating|user_id): how a line is read, when it aborts the load, and
 * when two movie names denote the same movie.
 */
module Records {
  import opened Results
  import opened Text

  /**
   * Why a load was aborted (the source raises LoadError with a message).
   * `line` counts the non-blank lines of the file from 1.
   */
  datatype LoadError =
    | MoviesFileEmpty
    | MoviesFieldCount(line: nat)
    | MoviesEmptyField(line: nat)
    | MovieIdNotInteger(line: nat)
    | SameNameDifferentId(line: nat)
    | RatingsFileEmpty
    | RatingsFieldCount(line: nat)
    | RatingsEmptyField(line: nat)
    | RatingNotNumeric(line: nat)
    | RatingOutOfBounds(line: nat)
    | UserIdNotInteger(line: nat)
    | UnknownMovie(line: nat)
  {
    /** Every abort except the empty-file one names the line it happened at. */
    predicate HasLine() {
      !MoviesFileEmpty? && !RatingsFileEmpty?
    }
  }

  /** What a loader leaves behind: the state reached, and the error that stopped it, if any. */
  datatype Outcome<S> = Outcome(state: S, error: Option<LoadError>)

  // ---------------------------------------------------------------------------
  // Reading the file
  // ---------------------------------------------------------------------------

  /** A line whose strip() is empty (see Text.StripEmptyIffBlank): whitespace only. */
  predicate IsBlank(s: string) {
    forall i :: 0 <= i < |s| ==> IsSpace(s[i])
  }

  /**
   * The list built at the top of both loaders: each line as the file yields it, with
   * newlines stripped from both ends, and the whitespace-only lines dropped.
   */
  function NonBlankLines(raw: seq<string>): (lines: seq<string>)
    ensures |lines| <= |raw|
    ensures forall i :: 0 <= i < |lines| ==> !IsBlank(lines[i])
  {
    if raw == [] then []
    else
      var ln := StripNewlines(raw[0]);
      if IsBlank(ln) then NonBlankLines(raw[1..]) else [ln] + NonBlankLines(raw[1..])
  }

  /** Every line of the file that is not blank once its newlines are stripped is kept, in that stripped form. */
  lemma NonBlankLinesKeeps(raw: seq<string>)
    ensures forall i :: 0 <= i < |raw| && !IsBlank(StripNewlines(raw[i])) ==> StripNewlines(raw[i]) in NonBlankLines(raw)
  {
    forall i | 0 <= i < |raw| && !IsBlank(StripNewlines(raw[i])) ensures StripNewlines(raw[i]) in NonBlankLines(raw) {
      NonBlankLinesKeepsAt(raw, i);
    }
  }

  /** The i-th line, when not blank, is kept. */
  lemma NonBlankLinesKeepsAt(raw: seq<string>, i: nat)
    requires i < |raw| && !IsBlank(StripNewlines(raw[i]))
    ensures StripNewlines(raw[i]) in NonBlankLines(raw)
  {
    var x := raw[i];
    var ln := StripNewlines(x);
    NonBlankLinesSingle(x, ln);
    var pre, post := raw[..i], raw[i + 1..];
    SplitAround(raw, i);
    NonBlankLinesAppend(pre, [x] + post);
    NonBlankLinesAppend([x], post);
    var A, B := NonBlankLines(pre), NonBlankLines(post);
    assert (A + ([ln] + B))[|A|] == ln;
  }

  /** A sequence is its part before i, its i-th element and its part after i. */
  lemma SplitAround<T>(s: seq<T>, i: nat)
    requires i < |s|
    ensures s == s[..i] + ([s[i]] + s[i + 1..])
  {
  }

  /** A one-line file whose line is not blank keeps that line, newline-stripped. */
  lemma NonBlankLinesSingle(x: string, ln: string)
    requires ln == StripNewlines(x) && !IsBlank(ln)
    ensures NonBlankLines([x]) == [ln]
  {
    assert [x][1..] == [];
  }

  /** Nothing else is kept: every kept line is the newline-stripped form of a line of the file. */
  lemma {:induction false} NonBlankLinesOnly(raw: seq<string>)
    ensures forall l :: l in NonBlankLines(raw) ==> exists i :: 0 <= i < |raw| && l == StripNewlines(raw[i])
  {
    if raw != [] {
      var tail := raw[1..];
      NonBlankLinesOnly(tail);
      var rest := NonBlankLines(tail);
      var ln := StripNewlines(raw[0]);
      assert NonBlankLines(raw) == if IsBlank(ln) then rest else [ln] + rest;
      forall l | l in NonBlankLines(raw) ensures exists i :: 0 <= i < |raw| && l == StripNewlines(raw[i]) {
        if l in rest {
          var j :| 0 <= j < |tail| && l == StripNewlines(tail[j]);
          assert raw[j + 1] == tail[j];
        } else {
          assert l == StripNewlines(raw[0]);
        }
      }
    }
  }

  /**
   * File order is kept: the lines kept from a + b are those kept from a followed by
   * those kept from b.
   */
  lemma {:induction false} NonBlankLinesAppend(a: seq<string>, b: seq<string>)
    ensures NonBlankLines(a + b) == NonBlankLines(a) + NonBlankLines(b)
    decreases |a|
  {
    if a == [] {
      assert a + b == b;
    } else {
      assert (a + b)[0] == a[0];
      assert (a + b)[1..] == a[1..] + b;
      NonBlankLinesAppend(a[1..], b);
    }
  }

  /** A file has no non-blank line exactly when every one of its lines is blank: the "file is empty" case. */
  lemma {:induction false} NonBlankLinesEmpty(raw: seq<string>)
    ensures NonBlankLines(raw) == [] <==> forall i :: 0 <= i < |raw| ==> IsBlank(StripNewlines(raw[i]))
  {
    if raw != [] {
      NonBlankLinesEmpty(raw[1..]);
      var tail := raw[1..];
      if forall i :: 0 <= i < |raw| ==> IsBlank(StripNewlines(raw[i])) {
        assert IsBlank(StripNewlines(raw[0]));
        forall i | 0 <= i < |tail| ensures IsBlank(StripNewlines(tail[i])) {
          assert tail[i] == raw[i + 1];
        }
      }
      if NonBlankLines(raw) == [] {
        assert IsBlank(StripNewlines(raw[0]));
        forall i | 0 <= i < |raw| ensures IsBlank(StripNewlines(raw[i])) {
          if i > 0 { assert raw[i] == tail[i - 1]; }
        }
      }
    }
  }

  /**
   * The loop both loaders run over the non-blank lines: `step` applied to each line in
   * turn, numbered from `lineNo`. The first error stops the loop, and whatever the
   * earlier lines changed stays changed.
   */
  function LoadLines<S>(step: (S, string, nat) -> Result<S, LoadError>, s: S, lines: seq<string>, lineNo: nat): Outcome<S>
    decreases |lines|
  {
    if lines == [] then Outcome(s, None)
    else match step(s, lines[0], lineNo)
      case Err(e) => Outcome(s, Some(e))
      case Ok(s') => LoadLines(step, s', lines[1..], lineNo + 1)
  }

  /** A line step whose every error names the line it was given. */
  ghost predicate ReportsLine<S(!new)>(step: (S, string, nat) -> Result<S, LoadError>) {
    forall s, line, n :: step(s, line, n).Err? ==> step(s, line, n).error.HasLine() && step(s, line, n).error.line == n
  }

  /**
   * No atomicity: when the loop stops, the error names one of its lines, every earlier
   * line was applied without error, and the state left behind is exactly what those
   * lines built; the named line fails on that state with that error.
   */
  lemma {:induction false} LoadLinesStopsAtError<S(!new)>(step: (S, string, nat) -> Result<S, LoadError>, s: S, lines: seq<string>, lineNo: nat)
    requires ReportsLine(step)
    ensures var o := LoadLines(step, s, lines, lineNo);
      o.error.Some? ==>
        var e := o.error.value;
        && e.HasLine() && lineNo <= e.line < lineNo + |lines|
        && LoadLines(step, s, lines[..e.line - lineNo], lineNo) == Outcome(o.state, None)
        && step(o.state, lines[e.line - lineNo], e.line) == Err(e)
    decreases |lines|
  {
    if lines != [] {
      match step(s, lines[0], lineNo)
      case Err(e) =>
        assert lines[..0] == [];
      case Ok(s1) =>
        LoadLinesStopsAtError(step, s1, lines[1..], lineNo + 1);
        var o := LoadLines(step, s, lines, lineNo);
        if o.error.Some? {
          var e := o.error.value;
          var j := e.line - lineNo;
          assert lines[..j][1..] == lines[1..][..j - 1];
          assert lines[..j][0] == lines[0];
          assert lines[j] == lines[1..][j - 1];
        }
    }
  }

  /** A run that completes passes, after its first j lines, the state those lines built to the rest. */
  lemma LoadLinesSplit<S>(step: (S, string, nat) -> Result<S, LoadError>, s: S, lines: seq<string>, j: nat, lineNo: nat)
    requires j <= |lines| && LoadLines(step, s, lines, lineNo).error.None?
    ensures var o := LoadLines(step, s, lines[..j], lineNo);
      && o.error.None?
      && LoadLines(step, s, lines, lineNo) == LoadLines(step, o.state, lines[j..], lineNo + j)
  {
    assert lines == lines[..j] + lines[j..];
    LoadLinesConcat(step, s, lines[..j], lines[j..], lineNo);
  }

  /** Running the loop over a + b is running it over a and, unless that stopped, over b from where it left off. */
  lemma {:induction false} LoadLinesConcat<S>(step: (S, string, nat) -> Result<S, LoadError>, s: S, a: seq<string>, b: seq<string>, lineNo: nat)
    ensures LoadLines(step, s, a + b, lineNo) ==
      var o := LoadLines(step, s, a, lineNo);
      if o.error.Some? then o else LoadLines(step, o.state, b, lineNo + |a|)
    decreases |a|
  {
    if a == [] {
      assert a + b == b;
    } else {
      assert (a + b)[0] == a[0];
      assert (a + b)[1..] == a[1..] + b;
      match step(s, a[0], lineNo)
      case Err(e) =>
      case Ok(s1) =>
        LoadLinesConcat(step, s1, a[1..], b, lineNo + 1);
    }
  }

  /** The loop over two lines that are both accepted. */
  lemma LoadTwoLines<S>(step: (S, string, nat) -> Result<S, LoadError>, s: S, l1: string, l2: string, s1: S, s2: S)
    requires step(s, l1, 1) == Ok(s1) && step(s1, l2, 2) == Ok(s2)
    ensures LoadLines(step, s, [l1, l2], 1) == Outcome(s2, None)
  {
    var lines := [l1, l2];
    assert lines[1..] == [l2] && [l2][1..] == [];
    assert LoadLines(step, s2, [], 3) == Outcome(s2, None);
    assert LoadLines(step, s1, [l2], 2) == Outcome(s2, None);
  }

  /** An accepted line hands the state it produced to the rest of the loop. */
  lemma LoadLinesAccept<S>(step: (S, string, nat) -> Result<S, LoadError>, s: S, lines: seq<string>, i: nat, lineNo: nat, s': S)
    requires i < |lines| && step(s, lines[i], lineNo) == Ok(s')
    ensures LoadLines(step, s, lines[i..], lineNo) == LoadLines(step, s', lines[i + 1..], lineNo + 1)
  {
    assert lines[i..][1..] == lines[i + 1..];
  }

  /** A rejected line stops the loop with the state reached before it. */
  lemma LoadLinesReject<S>(step: (S, string, nat) -> Result<S, LoadError>, s: S, lines: seq<string>, i: nat, lineNo: nat, e: LoadError)
    requires i < |lines| && step(s, lines[i], lineNo) == Err(e)
    ensures LoadLines(step, s, lines[i..], lineNo) == Outcome(s, Some(e))
  {
  }

  // ---------------------------------------------------------------------------
  // Movies lines
  // ---------------------------------------------------------------------------

  datatype MovieRow = MovieRow(genre: string, id: int, name: string)

  /** A field as the parsers hand it on: non-empty, stripped, free of the delimiter. */
  predicate CleanField(s: string) {
    s != [] && Strip(s) == s && '|' !in s
  }

  /** A non-empty text without '|' that neither starts nor ends with whitespace is a clean field. */
  lemma TrimmedFieldIsClean(s: string)
    requires s != [] && !IsSpace(s[0]) && !IsSpace(s[|s| - 1]) && '|' !in s
    ensures CleanField(s)
  {
    StripTrimmed(s);
  }

  /** The three fields of a line, split on '|' after a trailing newline is dropped. */
  function Fields(line: string): (parts: seq<string>)
    ensures |parts| == Occurrences(RStripNewlines(line), '|') + 1
    ensures forall i :: 0 <= i < |parts| ==> '|' !in parts[i]
  {
    Split(RStripNewlines(line), '|')
  }

  /**
   * _parse_movies_line: exactly three fields, none blank, the id an integer. Returns
   * the stripped genre, the id and the stripped name.
   */
  function ParseMoviesLine(line: string, lineNo: nat): (r: Result<MovieRow, LoadError>)
    ensures r == Err(MoviesFieldCount(lineNo)) <==> Occurrences(RStripNewlines(line), '|') != 2
    ensures r.Err? ==> r.error in {MoviesFieldCount(lineNo), MoviesEmptyField(lineNo), MovieIdNotInteger(lineNo)}
    ensures r.Ok? ==> CleanField(r.value.genre) && CleanField(r.value.name)
  {
    var parts := Fields(line);
    if |parts| != 3 then Err(MoviesFieldCount(lineNo))
    else
      var genre := Strip(parts[0]);
      var name := Strip(parts[2]);
      if genre == [] || Strip(parts[1]) == [] || name == [] then Err(MoviesEmptyField(lineNo))
      else match ParseInt(parts[1])
        case None => Err(MovieIdNotInteger(lineNo))
        case Some(id) =>
          StripIdempotent(parts[0]);
          StripIdempotent(parts[2]);
          StripKeepsOut(parts[0], '|');
          StripKeepsOut(parts[2], '|');
          Ok(MovieRow(genre, id, name))
  }

  /**
   * Each outcome of _parse_movies_line under its exact condition, in the order the
   * checks are made, and the accepted row in terms of the line's fields.
   */
  lemma ParseMoviesLineOutcome(line: string, lineNo: nat)
    ensures var parts, r := Fields(line), ParseMoviesLine(line, lineNo);
      r == Err(MoviesEmptyField(lineNo)) <==>
        |parts| == 3 && (Strip(parts[0]) == [] || Strip(parts[1]) == [] || Strip(parts[2]) == [])
    ensures var parts, r := Fields(line), ParseMoviesLine(line, lineNo);
      r == Err(MovieIdNotInteger(lineNo)) <==>
        && |parts| == 3 && Strip(parts[0]) != [] && Strip(parts[1]) != [] && Strip(parts[2]) != []
        && ParseInt(parts[1]).None?
    ensures var parts, r := Fields(line), ParseMoviesLine(line, lineNo);
      r.Ok? <==>
        && |parts| == 3 && Strip(parts[0]) != [] && Strip(parts[1]) != [] && Strip(parts[2]) != []
        && ParseInt(parts[1]).Some?
    ensures var parts, r := Fields(line), ParseMoviesLine(line, lineNo);
      r.Ok? ==> r.value == MovieRow(Strip(parts[0]), ParseInt(parts[1]).value, Strip(parts[2]))
  {
  }

  lemma StripKeepsOut(s: string, d: char)
    requires d !in s
    ensures d !in Strip(s)
  {
    var t := StripStart(s, IsSpace);
    DropKeepsOut(s, |s| - |t|, d);
    TakeKeepsOut(t, |Strip(s)|, d);
  }

  /** A character absent from s is absent from every suffix of s. */
  lemma DropKeepsOut(s: string, k: nat, d: char)
    requires k <= |s| && d !in s
    ensures d !in s[k..]
  {
    forall i | 0 <= i < |s| - k ensures s[k..][i] != d {
      assert s[k..][i] == s[k + i];
    }
  }

  /** A character absent from s is absent from every prefix of s. */
  lemma TakeKeepsOut(s: string, k: nat, d: char)
    requires k <= |s| && d !in s
    ensures d !in s[..k]
  {
    forall i | 0 <= i < k ensures s[..k][i] != d {
      assert s[..k][i] == s[i];
    }
  }

  /** A movies line written the way the file format describes it. */
  function MoviesLineText(row: MovieRow): string {
    Join([row.genre, ShowInt(row.id), row.name], '|')
  }

  lemma ThreeFields(a: string, b: string, c: string)
    requires '|' !in a && '|' !in b && '|' !in c
    ensures Split(Join([a, b, c], '|'), '|') == [a, b, c]
    ensures Join([a, b, c], '|') == a + "|" + b + "|" + c
  {
    assert [a, b, c][1..] == [b, c];
    assert [b, c][1..] == [c];
    assert Join([b, c], '|') == b + "|" + c;
    assert Join([a, b, c], '|') == a + "|" + Join([b, c], '|');
    SplitJoin([a, b, c], '|');
  }

  lemma NoTrailingNewline(s: string)
    requires s != [] && s[|s| - 1] != '\n'
    ensures RStripNewlines(s) == s
  {
  }

  lemma ShowIntHasNoBar(n: int)
    ensures '|' !in ShowInt(n) && Strip(ShowInt(n)) != []
  {
    ShowIntNoSpace(n);
    StripNoSpace(ShowInt(n));
    if n < 0 {
      forall i | 0 <= i < |ShowInt(n)| ensures ShowInt(n)[i] != '|' {
        if i > 0 { assert ShowInt(n)[i] == ShowNat(-n)[i - 1]; }
      }
    }
  }

  /** Writing a clean row as a movies line and parsing it back gives the row. */
  lemma MoviesLineRoundTrip(row: MovieRow, lineNo: nat)
    requires CleanField(row.genre) && CleanField(row.name)
    ensures ParseMoviesLine(MoviesLineText(row), lineNo) == Ok(row)
  {
    var idText := ShowInt(row.id);
    ShowIntHasNoBar(row.id);
    ThreeFields(row.genre, idText, row.name);
    var line := MoviesLineText(row);
    StripShape(row.name);
    assert line[|line| - 1] == row.name[|row.name| - 1];
    NoTrailingNewline(line);
    ParseIntShowInt(row.id);
  }

  // ---------------------------------------------------------------------------
  // Ratings lines
  // ---------------------------------------------------------------------------

  datatype RatingRow = RatingRow(name: string, rating: real, user: int)

  predicate InRatingRange(x: Float) {
    x.Finite? && 0.0 <= x.value <= 5.0
  }

  /**
   * _parse_ratings_line: exactly three fields, none blank, the rating a number in
   * [0, 5] (inf and nan fail the range test), the user id an integer; checked in that order.
   */
  function ParseRatingsLine(line: string, lineNo: nat): (r: Result<RatingRow, LoadError>)
    ensures r == Err(RatingsFieldCount(lineNo)) <==> Occurrences(RStripNewlines(line), '|') != 2
    ensures r.Err? ==> r.error in {RatingsFieldCount(lineNo), RatingsEmptyField(lineNo),
      RatingNotNumeric(lineNo), RatingOutOfBounds(lineNo), UserIdNotInteger(lineNo)}
    ensures r.Ok? ==> CleanField(r.value.name) && 0.0 <= r.value.rating <= 5.0
  {
    var parts := Fields(line);
    if |parts| != 3 then Err(RatingsFieldCount(lineNo))
    else
      var name, ratingText, userText := Strip(parts[0]), Strip(parts[1]), Strip(parts[2]);
      if name == [] || ratingText == [] || userText == [] then Err(RatingsEmptyField(lineNo))
      else match ParseFloat(ratingText)
        case None => Err(RatingNotNumeric(lineNo))
        case Some(x) =>
          if !InRatingRange(x) then Err(RatingOutOfBounds(lineNo))
          else match ParseInt(userText)
            case None => Err(UserIdNotInteger(lineNo))
            case Some(user) =>
              StripIdempotent(parts[0]);
              StripKeepsOut(parts[0], '|');
              Ok(RatingRow(name, x.value, user))
  }

  /**
   * Each outcome of _parse_ratings_line under its exact condition, in the order the
   * checks are made, and the accepted row in terms of the line's stripped fields.
   */
  lemma ParseRatingsLineOutcome(line: string, lineNo: nat)
    ensures var parts, r := Fields(line), ParseRatingsLine(line, lineNo);
      r == Err(RatingsEmptyField(lineNo)) <==>
        |parts| == 3 && (Strip(parts[0]) == [] || Strip(parts[1]) == [] || Strip(parts[2]) == [])
    ensures var parts, r := Fields(line), ParseRatingsLine(line, lineNo);
      r == Err(RatingNotNumeric(lineNo)) <==>
        && |parts| == 3 && Strip(parts[0]) != [] && Strip(parts[1]) != [] && Strip(parts[2]) != []
        && ParseFloat(Strip(parts[1])).None?
    ensures var parts, r := Fields(line), ParseRatingsLine(line, lineNo);
      r == Err(RatingOutOfBounds(lineNo)) <==>
        && |parts| == 3 && Strip(parts[0]) != [] && Strip(parts[1]) != [] && Strip(parts[2]) != []
        && ParseFloat(Strip(parts[1])).Some? && !InRatingRange(ParseFloat(Strip(parts[1])).value)
    ensures var parts, r := Fields(line), ParseRatingsLine(line, lineNo);
      r == Err(UserIdNotInteger(lineNo)) <==>
        && |parts| == 3 && Strip(parts[0]) != [] && Strip(parts[1]) != [] && Strip(parts[2]) != []
        && ParseFloat(Strip(parts[1])).Some? && InRatingRange(ParseFloat(Strip(parts[1])).value)
        && ParseInt(Strip(parts[2])).None?
    ensures var parts, r := Fields(line), ParseRatingsLine(line, lineNo);
      r.Ok? <==>
        && |parts| == 3 && Strip(parts[0]) != [] && Strip(parts[1]) != [] && Strip(parts[2]) != []
        && ParseFloat(Strip(parts[1])).Some? && InRatingRange(ParseFloat(Strip(parts[1])).value)
        && ParseInt(Strip(parts[2])).Some?
    ensures var parts, r := Fields(line), ParseRatingsLine(line, lineNo);
      r.Ok? ==> r.value == RatingRow(Strip(parts[0]), ParseFloat(Strip(parts[1])).value.value, ParseInt(Strip(parts[2])).value)
  {
  }

  /** A ratings line with a whole-number rating, as the file format describes it. */
  function RatingsLineText(name: string, stars: nat, user: int): string {
    Join([name, ShowNat(stars), ShowInt(user)], '|')
  }

  /**
   * A clean name with a whole-number rating and an integer user id parses back to
   * itself when the rating is at most 5, and aborts as out of bounds when it is more.
   */
  lemma RatingsLineRoundTrip(name: string, stars: nat, user: int, lineNo: nat)
    requires CleanField(name)
    ensures var r := ParseRatingsLine(RatingsLineText(name, stars, user), lineNo);
      if stars <= 5 then r == Ok(RatingRow(name, stars as real, user))
      else r == Err(RatingOutOfBounds(lineNo))
  {
    var starsText := ShowNat(stars);
    var u := ShowInt(user);
    RatingsLineFields(name, stars, user);
    NatFieldText(stars);
    IntFieldText(user);
    ParseRatingsFields(RatingsLineText(name, stars, user), lineNo, name, starsText, u, stars as real, user);
    assert Strip(name) == name;
  }

  /** str(n) of a natural number is a stripped, non-empty field that float() reads back as n. */
  lemma NatFieldText(n: nat)
    ensures Strip(ShowNat(n)) == ShowNat(n)
    ensures ShowNat(n) != []
    ensures ParseFloat(ShowNat(n)) == Some(Finite(n as real))
  {
    assert ShowInt(n) == ShowNat(n);
    ShowIntNoSpace(n);
    StripNoSpace(ShowNat(n));
    ParseIntShowInt(n);
    IntTextIsFloatText(ShowNat(n), n);
  }

  /** str(n) of an integer is a stripped, non-empty field that int() reads back as n. */
  lemma IntFieldText(n: int)
    ensures Strip(ShowInt(n)) == ShowInt(n)
    ensures ShowInt(n) != []
    ensures ParseInt(ShowInt(n)) == Some(n)
  {
    ShowIntNoSpace(n);
    StripNoSpace(ShowInt(n));
    ShowIntHasNoBar(n);
    ParseIntShowInt(n);
  }

  /**
   * A line of three non-blank fields, padded or not, whose stripped rating is a finite
   * number and whose stripped user field is an integer: accepted, with the stripped
   * name, exactly when the rating is in [0, 5], and otherwise out of bounds.
   */
  lemma ParseRatingsFields(line: string, lineNo: nat, name: string, ratingText: string, userText: string, x: real, user: int)
    requires Fields(line) == [name, ratingText, userText]
    requires Strip(name) != [] && Strip(ratingText) != [] && Strip(userText) != []
    requires ParseFloat(Strip(ratingText)) == Some(Finite(x)) && ParseInt(Strip(userText)) == Some(user)
    ensures ParseRatingsLine(line, lineNo) ==
      if 0.0 <= x <= 5.0 then Ok(RatingRow(Strip(name), x, user)) else Err(RatingOutOfBounds(lineNo))
  {
    if 0.0 <= x <= 5.0 {
      RatingInRange(line, lineNo, name, ratingText, userText, x, user);
    } else {
      RatingOutOfRange(line, lineNo, name, ratingText, userText, x, user);
    }
  }

  /** The accepted case of ParseRatingsFields. */
  lemma RatingInRange(line: string, lineNo: nat, name: string, ratingText: string, userText: string, x: real, user: int)
    requires Fields(line) == [name, ratingText, userText]
    requires Strip(name) != [] && Strip(ratingText) != [] && Strip(userText) != []
    requires ParseFloat(Strip(ratingText)) == Some(Finite(x)) && ParseInt(Strip(userText)) == Some(user)
    requires 0.0 <= x <= 5.0
    ensures ParseRatingsLine(line, lineNo) == Ok(RatingRow(Strip(name), x, user))
  {
    var parts := Fields(line);
    assert parts[0] == name && parts[1] == ratingText && parts[2] == userText;
    assert InRatingRange(Finite(x));
  }

  /** The out-of-bounds case of ParseRatingsFields. */
  lemma RatingOutOfRange(line: string, lineNo: nat, name: string, ratingText: string, userText: string, x: real, user: int)
    requires Fields(line) == [name, ratingText, userText]
    requires Strip(name) != [] && Strip(ratingText) != [] && Strip(userText) != []
    requires ParseFloat(Strip(ratingText)) == Some(Finite(x))
    requires !(0.0 <= x <= 5.0)
    ensures ParseRatingsLine(line, lineNo) == Err(RatingOutOfBounds(lineNo))
  {
  }

  /** The fields of a written ratings line are the name, the rating text and the user id text. */
  lemma RatingsLineFields(name: string, stars: nat, user: int)
    requires CleanField(name)
    ensures Fields(RatingsLineText(name, stars, user)) == [name, ShowNat(stars), ShowInt(user)]
  {
    var starsText := ShowNat(stars);
    assert ShowInt(stars) == starsText;
    ShowIntHasNoBar(stars);
    ShowIntHasNoBar(user);
    ShowIntNoSpace(user);
    ThreeFields(name, starsText, ShowInt(user));
    var line := RatingsLineText(name, stars, user);
    var u := ShowInt(user);
    assert line[|line| - 1] == u[|u| - 1];
    assert !IsSpace(u[|u| - 1]);
    NoTrailingNewline(line);
  }

  // ---------------------------------------------------------------------------
  // Movie-name equivalence and the canonical-name scan
  // ---------------------------------------------------------------------------

  /** _case_insensitive_equal_same_length: same length and equal once lower-cased. */
  predicate SameMovieName(a: string, b: string) {
    |a| == |b| && Lower(a) == Lower(b)
  }

  /** Two names are the same movie exactly when they agree character by character up to letter case. */
  lemma SameMovieNameCharwise(a: string, b: string)
    ensures SameMovieName(a, b) <==>
      |a| == |b| && forall i :: 0 <= i < |a| ==> LowerChar(a[i]) == LowerChar(b[i])
  {
    if |a| == |b| && forall i :: 0 <= i < |a| ==> LowerChar(a[i]) == LowerChar(b[i]) {
      assert Lower(a) == Lower(b);
    }
  }

  /** The relation is an equivalence: reflexive, symmetric and transitive. */
  lemma SameMovieNameEquivalence(a: string, b: string, c: string)
    ensures SameMovieName(a, a)
    ensures SameMovieName(a, b) ==> SameMovieName(b, a)
    ensures SameMovieName(a, b) && SameMovieName(b, c) ==> SameMovieName(a, c)
  {
  }

  /**
   * The linear scan of _get_canonical_movie_name and of load_ratings_file: the position
   * of the first name equivalent to `name`, or |names| when there is none.
   */
  function FirstEquivalent(names: seq<string>, name: string): (k: nat)
    ensures k <= |names|
    ensures forall j :: 0 <= j < k ==> !SameMovieName(names[j], name)
    ensures k < |names| ==> SameMovieName(names[k], name)
  {
    if names == [] then 0
    else if SameMovieName(names[0], name) then 0
    else 1 + FirstEquivalent(names[1..], name)
  }

  /** The scan of load_ratings_file: the existing key a name resolves to, if any. */
  function FindCanonical(names: seq<string>, name: string): Option<string> {
    var k := FirstEquivalent(names, name);
    if k < |names| then Some(names[k]) else None
  }

  /** _get_canonical_movie_name: the existing equivalent key, or the name itself. */
  function CanonicalName(names: seq<string>, name: string): string {
    FindCanonical(names, name).GetOr(name)
  }

  /** Names no two of which are the same movie (the keys of the movie catalog). */
  ghost predicate PairwiseDistinctMovies(names: seq<string>) {
    forall i, j :: 0 <= i < j < |names| ==> !SameMovieName(names[i], names[j])
  }

  /**
   * Over pairwise-distinct keys the scan finds the one key equivalent to the name when
   * there is one, and returns the name unchanged otherwise.
   */
  lemma CanonicalNameSpec(names: seq<string>, name: string)
    requires PairwiseDistinctMovies(names)
    ensures var c := CanonicalName(names, name);
      && SameMovieName(c, name)
      && (c in names <==> exists i :: 0 <= i < |names| && SameMovieName(names[i], name))
      && (forall i :: 0 <= i < |names| && SameMovieName(names[i], name) ==> names[i] == c)
      && ((forall i :: 0 <= i < |names| ==> !SameMovieName(names[i], name)) ==> c == name)
  {
    var k := FirstEquivalent(names, name);
    forall i | 0 <= i < |names| && SameMovieName(names[i], name)
      ensures names[i] == CanonicalName(names, name)
    {
      if i != k {
        assert k < i;
        assert SameMovieName(names[k], names[i]);
      }
    }
    if k == |names| && name in names {
      var i :| 0 <= i < |names| && names[i] == name;
      assert SameMovieName(names[i], name);
    }
  }

  // ---------------------------------------------------------------------------
  // Genre keys
  // ---------------------------------------------------------------------------

  /** _norm_genre: the internal genre key, stripped and lower-cased. */
  function NormGenre(g: string): string {
    Lower(Strip(g))
  }

  /** Different spellings of a genre that differ only in case and surrounding whitespace share one key, and a key is its own key. */
  lemma NormGenreIsKey(g: string)
    ensures NormGenre(NormGenre(g)) == NormGenre(g)
  {
    var s := Strip(g);
    var l := Lower(s);
    StripShape(g);
    if l != [] {
      LowerCharSpace(s[0]);
      LowerCharSpace(s[|s| - 1]);
    }
    StripUnpadded(l);
    LowerIdempotent(s);
  }
}
