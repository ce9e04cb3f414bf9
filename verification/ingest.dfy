/**
  The ingestion run: both tables are emptied, the movies file is folded
  into the movies table (skipping ids already present), then the genres
  file is appended to the genres table row by row. A reader error other
  than end of file, a record too short to index, or a file that cannot be
  opened ends the run; the tables keep whatever was inserted before.
 */
module Ingest {
  import opened Strconv
  import opened CsvStream
  import opened Tables

  /** Fields read from a movies record: id, title, year, rating. */
  const MovieFields: nat := 4
  /** Fields read from a genres record: movie id, genre. */
  const GenreFields: nat := 2

  /** A movies record as stored: both numbers through `Atoi` (malformed
      text becomes 0), the title verbatim, the rating through the supplied
      parser. */
  function ParseMovie<R>(fields: seq<string>, parseRating: string -> R): (m: Movie<R>)
    requires |fields| >= MovieFields
    ensures m.title == fields[1] && m.rating == parseRating(fields[3])
    ensures forall n :: fields[0] == Itoa(n) ==> m.id == n
    ensures forall n :: fields[2] == Itoa(n) ==> m.year == n
  {
    Movie(Atoi(fields[0]), fields[1], Atoi(fields[2]), parseRating(fields[3]))
  }

  /** A genres record as stored: the movie id through `Atoi`, the genre
      verbatim. */
  function ParseGenre(fields: seq<string>): (g: Genre)
    requires |fields| >= GenreFields
    ensures g.genre == fields[1]
    ensures forall n :: fields[0] == Itoa(n) ==> g.movieId == n
  {
    Genre(Atoi(fields[0]), fields[1])
  }

  function ParseMovies<R>(recs: seq<seq<string>>, parseRating: string -> R): (ms: seq<Movie<R>>)
    requires forall r :: r in recs ==> |r| >= MovieFields
    ensures |ms| == |recs|
    ensures forall i :: 0 <= i < |recs| ==> ms[i] == ParseMovie(recs[i], parseRating)
    decreases |recs|
  {
    if |recs| == 0 then []
    else [ParseMovie(recs[0], parseRating)] + ParseMovies(recs[1..], parseRating)
  }

  /** Every genre record, in order, with nothing dropped or merged. */
  function ParseGenres(recs: seq<seq<string>>): (gs: seq<Genre>)
    requires forall r :: r in recs ==> |r| >= GenreFields
    ensures |gs| == |recs|
    ensures forall i :: 0 <= i < |recs| ==> gs[i] == ParseGenre(recs[i])
    decreases |recs|
  {
    if |recs| == 0 then []
    else [ParseGenre(recs[0])] + ParseGenres(recs[1..])
  }

  /** How one loop ends: at end of file, or at a fatal fault; either way
      with the table as it stands. */
  datatype Load<T> = Done(table: T) | Halt(fault: Fault, table: T)

  function Finish<T>(ending: Option<Fault>, table: T): Load<T> {
    match ending
    case None => Done(table)
    case Some(fault) => Halt(fault, table)
  }

  /** The movies loop over the reads after the header, inserting into `t`. */
  function LoadMovies<R>(data: seq<Read>, t: seq<Movie<R>>, parseRating: string -> R): (o: Load<seq<Movie<R>>>)
    ensures UniqueIds(t) ==> UniqueIds(o.table)
    ensures Ids(t) <= Ids(o.table)
    decreases |data|
  {
    if |data| == 0 then Done(t)
    else match data[0]
      case Failure(msg) =>
        if msg == EofMessage then Done(t) else Halt(ReadFailed(MoviesCsv, msg), t)
      case Record(fields) =>
        if |fields| < MovieFields then Halt(ShortRecord(MoviesCsv, |fields|), t)
        else LoadMovies(data[1..], InsertMovie(t, ParseMovie(fields, parseRating)), parseRating)
  }

  /** The genres loop over the reads after the header, appending to `g`. */
  function LoadGenres(data: seq<Read>, g: seq<Genre>): (o: Load<seq<Genre>>)
    ensures |g| <= |o.table| && o.table[..|g|] == g
    decreases |data|
  {
    if |data| == 0 then Done(g)
    else match data[0]
      case Failure(msg) =>
        if msg == EofMessage then Done(g) else Halt(ReadFailed(GenresCsv, msg), g)
      case Record(fields) =>
        if |fields| < GenreFields then Halt(ShortRecord(GenresCsv, |fields|), g)
        else
          var o := LoadGenres(data[1..], g + [ParseGenre(fields)]);
          assert o.table[..|g|] == (o.table[..|g| + 1])[..|g|];
          o
  }

  /** The movies loop ends as the stream dictates, with the records it
      consumed folded into the table in file order. */
  lemma {:induction false} LoadMoviesMeaning<R>(data: seq<Read>, t: seq<Movie<R>>, parseRating: string -> R)
    ensures LoadMovies(data, t, parseRating)
         == Finish(Ending(data, MovieFields, MoviesCsv),
                   InsertAll(t, ParseMovies(Consumed(data, MovieFields), parseRating)))
    decreases |data|
  {
    if |data| > 0 && data[0].Record? && |data[0].fields| >= MovieFields {
      var p := ParseMovie(data[0].fields, parseRating);
      var rest := ParseMovies(Consumed(data[1..], MovieFields), parseRating);
      assert ParseMovies(Consumed(data, MovieFields), parseRating) == [p] + rest;
      assert ([p] + rest)[0] == p && ([p] + rest)[1..] == rest;
      LoadMoviesMeaning(data[1..], InsertMovie(t, p), parseRating);
    }
  }

  /** The genres loop ends as the stream dictates, having appended every
      record it consumed. */
  lemma {:induction false} LoadGenresMeaning(data: seq<Read>, g: seq<Genre>)
    ensures LoadGenres(data, g)
         == Finish(Ending(data, GenreFields, GenresCsv), g + ParseGenres(Consumed(data, GenreFields)))
    decreases |data|
  {
    if |data| == 0 {
      assert g + [] == g;
    } else if data[0].Failure? {
      assert Consumed(data, GenreFields) == [];
      assert g + [] == g;
    } else if |data[0].fields| < GenreFields {
      assert Consumed(data, GenreFields) == [];
      assert g + [] == g;
    } else {
      LoadGenresMeaning(data[1..], g + [ParseGenre(data[0].fields)]);
      LoadGenresStep(data, g);
    }
  }

  /** One record of the genres loop, given the rest of the loop's meaning. */
  lemma LoadGenresStep(data: seq<Read>, g: seq<Genre>)
    requires |data| > 0 && data[0].Record? && |data[0].fields| >= GenreFields
    requires var g' := g + [ParseGenre(data[0].fields)];
             LoadGenres(data[1..], g')
             == Finish(Ending(data[1..], GenreFields, GenresCsv), g' + ParseGenres(Consumed(data[1..], GenreFields)))
    ensures LoadGenres(data, g)
         == Finish(Ending(data, GenreFields, GenresCsv), g + ParseGenres(Consumed(data, GenreFields)))
  {
    AfterWideRecord(data, GenreFields, GenresCsv);
    AppendParsedGenres(g, data[0].fields, Consumed(data[1..], GenreFields));
  }

  lemma AppendParsedGenres(g: seq<Genre>, fields: seq<string>, recs: seq<seq<string>>)
    requires |fields| >= GenreFields
    requires forall r :: r in recs ==> |r| >= GenreFields
    ensures (g + [ParseGenre(fields)]) + ParseGenres(recs) == g + ParseGenres([fields] + recs)
  {
  }

  /** An input file: one that cannot be opened, or the reads it yields. */
  datatype Input = Unopenable(message: string) | Opened(content: seq<Read>)

  /** A run either completes, or aborts with a fault; the database is what
      the tables hold at that point. */
  datatype Run<R> = Completed(db: Database<R>) | Aborted(fault: Fault, db: Database<R>)

  /** One ingestion run against database `db`. */
  function Populate<R>(db: Database<R>, movies: Input, genres: Input, parseRating: string -> R): (run: Run<R>)
    ensures UniqueIds(run.db.movies)
  {
    // Every existing row of both tables is deleted first.
    var cleared: Database<R> := Database([], []);
    match movies
    case Unopenable(msg) => Aborted(OpenFailed(MoviesCsv, msg), cleared)
    case Opened(movieReads) =>
      match LoadMovies(SkipHeader(movieReads), cleared.movies, parseRating)
      case Halt(fault, ms) => Aborted(fault, Database(ms, cleared.genres))
      case Done(ms) =>
        match genres
        case Unopenable(msg) => Aborted(OpenFailed(GenresCsv, msg), Database(ms, cleared.genres))
        case Opened(genreReads) =>
          match LoadGenres(SkipHeader(genreReads), cleared.genres)
          case Halt(fault, gs) => Aborted(fault, Database(ms, gs))
          case Done(gs) => Completed(Database(ms, gs))
  }

  /** The reads of an opened file after its header. */
  function DataOf(input: Input): seq<Read>
    requires input.Opened?
  {
    SkipHeader(input.content)
  }

  /** The first read of each file never reaches a table: whatever it is,
      a header record or a reader error, the run comes out the same. */
  lemma HeaderIsDiscarded<R>(db: Database<R>, movieHeader: Read, otherMovieHeader: Read, movieData: seq<Read>,
                             genreHeader: Read, otherGenreHeader: Read, genreData: seq<Read>,
                             parseRating: string -> R)
    ensures Populate(db, Opened([movieHeader] + movieData), Opened([genreHeader] + genreData), parseRating)
         == Populate(db, Opened([otherMovieHeader] + movieData), Opened([otherGenreHeader] + genreData), parseRating)
  {
    assert ([movieHeader] + movieData)[1..] == movieData == ([otherMovieHeader] + movieData)[1..];
    assert ([genreHeader] + genreData)[1..] == genreData == ([otherGenreHeader] + genreData)[1..];
  }

  /** A run completes exactly when both files open and each loop reaches
      end of file without a reader error or a short record. */
  lemma PopulateCompletesIff<R>(db: Database<R>, movies: Input, genres: Input, parseRating: string -> R)
    ensures Populate(db, movies, genres, parseRating).Completed? <==>
              && movies.Opened? && genres.Opened?
              && Ending(DataOf(movies), MovieFields, MoviesCsv) == None
              && Ending(DataOf(genres), GenreFields, GenresCsv) == None
  {
    if movies.Opened? {
      LoadMoviesMeaning(DataOf(movies), [], parseRating);
      if genres.Opened? {
        LoadGenresMeaning(DataOf(genres), []);
      }
    }
  }

  /** After a completed run every record before end of file has been
      consumed; the movies table holds the first record of each parsed id,
      in file order, and the genres table holds every genre record, in
      order, whether or not its movie id is in the movies table. */
  lemma CompletedRunTables<R>(db: Database<R>, movies: Input, genres: Input, parseRating: string -> R)
    requires Populate(db, movies, genres, parseRating).Completed?
    ensures movies.Opened? && genres.Opened?
    ensures var recs := Consumed(DataOf(movies), MovieFields);
            && |recs| == StopIndex(DataOf(movies))
            && Populate(db, movies, genres, parseRating).db.movies
               == FirstOccurrences(ParseMovies(recs, parseRating))
    ensures var recs := Consumed(DataOf(genres), GenreFields);
            && |recs| == StopIndex(DataOf(genres))
            && Populate(db, movies, genres, parseRating).db.genres == ParseGenres(recs)
  {
    PopulateCompletesIff(db, movies, genres, parseRating);
    var mrecs := Consumed(DataOf(movies), MovieFields);
    LoadMoviesMeaning(DataOf(movies), [], parseRating);
    LoadGenresMeaning(DataOf(genres), []);
    InsertAllKeepsFirstOccurrences(ParseMovies(mrecs, parseRating));
    assert [] + ParseGenres(Consumed(DataOf(genres), GenreFields))
        == ParseGenres(Consumed(DataOf(genres), GenreFields));
  }

  /** The movies table of a completed run, record by record: no id twice,
      exactly the parsed ids of the consumed records, and for each id the
      record that came first in the file. */
  lemma CompletedMovies<R>(db: Database<R>, movies: Input, genres: Input, parseRating: string -> R)
    requires Populate(db, movies, genres, parseRating).Completed?
    ensures movies.Opened?
    ensures var recs := Consumed(DataOf(movies), MovieFields);
            var ps := ParseMovies(recs, parseRating);
            var table := Populate(db, movies, genres, parseRating).db.movies;
            && UniqueIds(table)
            && Ids(table) == (set i | 0 <= i < |recs| :: Atoi(recs[i][0]))
            && (forall i :: 0 <= i < |ps| && IsFirst(ps, i) ==> ps[i] in table)
            && (forall m :: m in table ==> exists i :: 0 <= i < |ps| && IsFirst(ps, i) && ps[i] == m)
  {
    CompletedRunTables(db, movies, genres, parseRating);
    var recs := Consumed(DataOf(movies), MovieFields);
    var ps := ParseMovies(recs, parseRating);
    var table := Populate(db, movies, genres, parseRating).db.movies;
    assert table == FirstOccurrences(ps);
    FirstOccurrencesIds(ps);
    FirstOccurrencesAreFirstRows(ps);
    ParsedIds(recs, parseRating);
  }

  lemma ParsedIds<R>(recs: seq<seq<string>>, parseRating: string -> R)
    requires forall r :: r in recs ==> |r| >= MovieFields
    ensures Ids(ParseMovies(recs, parseRating)) == set i | 0 <= i < |recs| :: Atoi(recs[i][0])
  {
    var ps := ParseMovies(recs, parseRating);
    forall x | x in Ids(ps) ensures x in set i | 0 <= i < |recs| :: Atoi(recs[i][0]) {
      var i :| 0 <= i < |ps| && ps[i].id == x;
      assert Atoi(recs[i][0]) == x;
    }
    forall x | x in (set i | 0 <= i < |recs| :: Atoi(recs[i][0])) ensures x in Ids(ps) {
      var i :| 0 <= i < |recs| && Atoi(recs[i][0]) == x;
      assert ps[i].id == x;
    }
  }

  /** An unopenable movies file ends the run right after the clear: both
      tables are left empty. */
  lemma UnopenableMoviesFile<R>(db: Database<R>, message: string, genres: Input, parseRating: string -> R)
    ensures Populate(db, Unopenable(message), genres, parseRating)
         == Aborted(OpenFailed(MoviesCsv, message), Database([], []))
  {
  }

  /** A fault in the movies file ends the run with that fault, the genres
      table empty, and the movies table holding the first record of each
      id among the records consumed before the fault. */
  lemma MoviesFileFault<R>(db: Database<R>, movies: Input, genres: Input, parseRating: string -> R)
    requires movies.Opened? && Ending(DataOf(movies), MovieFields, MoviesCsv).Some?
    ensures var recs := Consumed(DataOf(movies), MovieFields);
            Populate(db, movies, genres, parseRating)
            == Aborted(Ending(DataOf(movies), MovieFields, MoviesCsv).value,
                       Database(FirstOccurrences(ParseMovies(recs, parseRating)), []))
  {
    var recs := Consumed(DataOf(movies), MovieFields);
    LoadMoviesMeaning(DataOf(movies), [], parseRating);
    InsertAllKeepsFirstOccurrences(ParseMovies(recs, parseRating));
  }

  /** A genres file that cannot be opened or hits a fault ends the run
      after the movies table was fully loaded; the genres table holds the
      genre records consumed before the fault. */
  lemma GenresFileFault<R>(db: Database<R>, movies: Input, genres: Input, parseRating: string -> R)
    requires movies.Opened? && Ending(DataOf(movies), MovieFields, MoviesCsv) == None
    ensures var loaded := FirstOccurrences(ParseMovies(Consumed(DataOf(movies), MovieFields), parseRating));
            genres.Unopenable? ==>
              Populate(db, movies, genres, parseRating)
              == Aborted(OpenFailed(GenresCsv, genres.message), Database(loaded, []))
    ensures var loaded := FirstOccurrences(ParseMovies(Consumed(DataOf(movies), MovieFields), parseRating));
            genres.Opened? && Ending(DataOf(genres), GenreFields, GenresCsv).Some? ==>
              Populate(db, movies, genres, parseRating)
              == Aborted(Ending(DataOf(genres), GenreFields, GenresCsv).value,
                         Database(loaded, ParseGenres(Consumed(DataOf(genres), GenreFields))))
  {
    var recs := Consumed(DataOf(movies), MovieFields);
    LoadMoviesMeaning(DataOf(movies), [], parseRating);
    InsertAllKeepsFirstOccurrences(ParseMovies(recs, parseRating));
    if genres.Opened? {
      LoadGenresMeaning(DataOf(genres), []);
      assert [] + ParseGenres(Consumed(DataOf(genres), GenreFields))
          == ParseGenres(Consumed(DataOf(genres), GenreFields));
    }
  }

  /** Because both tables are cleared first, the outcome depends only on
      the two files, not on what the database held before. */
  lemma PopulateIgnoresPriorState<R>(db1: Database<R>, db2: Database<R>, movies: Input, genres: Input,
                                     parseRating: string -> R)
    ensures Populate(db1, movies, genres, parseRating) == Populate(db2, movies, genres, parseRating)
  {
  }

  /** Running the ingestion again on the same files, over whatever the
      first run left behind, gives the same outcome. */
  lemma PopulateIsIdempotent<R>(db: Database<R>, movies: Input, genres: Input, parseRating: string -> R)
    ensures var first := Populate(db, movies, genres, parseRating);
            Populate(first.db, movies, genres, parseRating) == first
  {
    PopulateIgnoresPriorState(db, Populate(db, movies, genres, parseRating).db, movies, genres, parseRating);
  }

  /** A stored movie carries its record's numbers as written: a record
      rendered from a movie parses back to that movie. */
  lemma ParseMovieOfRendered<R>(m: Movie<R>, ratingText: string, parseRating: string -> R)
    requires m.rating == parseRating(ratingText)
    ensures ParseMovie([Itoa(m.id), m.title, Itoa(m.year), ratingText], parseRating) == m
  {
  }

  /** A numeric field of a movies record that is not a decimal integer is
      stored as 0. */
  lemma MalformedNumbersBecomeZero<R>(fields: seq<string>, parseRating: string -> R)
    requires |fields| >= MovieFields
    ensures !IsDecimal(fields[0]) ==> ParseMovie(fields, parseRating).id == 0
    ensures !IsDecimal(fields[2]) ==> ParseMovie(fields, parseRating).year == 0
  {
  }

  /** The movie id of a genres record (two fields suffice) that is not a
      decimal integer is stored as 0. */
  lemma MalformedGenreIdBecomesZero(fields: seq<string>)
    requires |fields| >= GenreFields
    ensures !IsDecimal(fields[0]) ==> ParseGenre(fields).movieId == 0
  {
  }
}
