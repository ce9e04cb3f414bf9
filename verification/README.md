# Movie database ingestion, modelled in Dafny

This project models `populateDatabase`, the ingestion routine of a small Go
program that loads a movies CSV file and a movie-genres CSV file into two
SQLite tables. A run does four things in order:

- it deletes every row of both tables;
- it opens the movies file and discards its first read (the header);
- it folds the remaining records into the `movies` table, parsing
  `id, title, year, rating`. It skips a record whose id is already in the
  table (the `SELECT COUNT(*) … WHERE id = ?` check) and appends any other;
- it opens the genres file, discards its header and appends every
  `movie_id, genre` record to the `genres` table. There is no duplicate
  check and no check against the movies table.

Integer fields go through `strconv.Atoi` with the error discarded, so
malformed text is stored as 0. End of file ends a loop normally. Any other
reader error is fatal, and so is a file that cannot be opened. Inserts are
not wrapped in a transaction, so a fatal run leaves behind whatever it had
inserted.

The model is functional. Tables are sequences of rows in insertion order
(`Tables.Database`). Each loop is a fold over the read outcomes that follow
the header (`Ingest.LoadMovies`, `Ingest.LoadGenres`). A run returns
`Completed(db)` or `Aborted(fault, db)` (`Ingest.Populate`). Modules:

- `Strconv`: `Atoi` with its error dropped, and its partner `Itoa`.
- `CsvStream`: a file as a sequence of reads, `Record(fields)` or
  `Failure(message)`, where running off the end is io.EOF. It also decides
  where a loop stops, how it ends, and which records it consumes.
- `Tables`: the row types, the duplicate check, the insert fold, and the
  reference definition `FirstOccurrences`, which holds the first row of
  each id in file order.
- `Ingest`: record parsing, the two loops, the run, and the theorems about
  a run.

Things the model follows from `main.go` exactly:

- The loops test `err.Error() == "EOF"`. A reader error whose text is
  "EOF" therefore also ends a loop normally.
- The header read's result is never looked at, even when it is an error
  (`Ingest.HeaderIsDiscarded`).
- A record with fewer fields than the loop indexes would make the Go
  program panic on `record[k]`. The model turns that into the fatal fault
  `ShortRecord`. Extra fields are ignored.
- The rating parser (`strconv.ParseFloat`) is a parameter
  `parseRating: string -> R`. The rating type `R` is opaque and carried
  through unchanged.

Two consequences of the code's order of operations:

- Of the two open failures, only an unopenable movies file is sure to
  leave both tables empty (`Ingest.UnopenableMoviesFile`). When the genres
  file cannot be opened, the movies table is already loaded
  (`Ingest.GenresFileFault`).
- The header is the first read, whatever its outcome: a reader error in
  that position is discarded like a header record
  (`Ingest.HeaderIsDiscarded`).

## Model

| member | source | states |
|---|---|---|
| `Strconv.Atoi` | main.go:80 | Text that is not an optionally signed run of ASCII digits becomes 0 instead of an error. A negative result comes only from a well-formed '-' number. |
| `Strconv.Itoa` | main.go:82 | The decimal rendering of any integer is well-formed, and `Atoi` reads it back to the same integer. |
| `Strconv.LeadingZerosIgnored` | main.go:120 | A leading zero or a leading '+' does not change the parsed value. |
| `CsvStream.SkipHeader` | main.go:69 | The reads a loop sees are the file's reads with the first one removed, whatever that first read was; an empty file yields none. |
| `CsvStream.StopIndex` | main.go:71-78 | A loop reads records up to the first reader error (or the end of the reads) and no further. |
| `CsvStream.Ending` | main.go:71-78 | A loop ends normally iff its stop is end of file (or an error with text "EOF") and every record before it has enough fields. Otherwise it ends with a fault for that file, namely the first thing the loop hits: a read fault when every record before the stop is wide enough and the stop is an error whose text is not "EOF" (carrying that text), otherwise a short-record fault naming the field count of the first record before the stop that is too narrow. |
| `CsvStream.Consumed` | main.go:71-100 | The records a loop processes in full are a prefix of the reads, in order, each wide enough to index. The prefix stops only at an error or a record too narrow to index (or at the end of the reads). When the loop ends normally, that prefix is every record before the stop. |
| `CsvStream.EndingIgnoresFieldText` | main.go:71-83 | Changing the text of fields, but not the number of fields, the kind of each read or the error messages, changes neither how a loop ends nor how many records it consumes: a malformed number never stops a loop. |
| `Tables.CountId` | main.go:86-91 | The per-row `COUNT(*)` check is positive exactly when the id is already in the table, and it is at most 1 while ids are unique. |
| `Tables.InsertMovie` | main.go:85-99 | A row with an id already present leaves the table unchanged; any other row is appended. The id set gains the row's id, and unique ids stay unique. |
| `Tables.InsertAll` | main.go:71-100 | Folding rows into a table adds exactly their ids and keeps ids unique. |
| `Tables.InsertAllSnoc` | main.go:71-100 | The fold over a batch plus one row is the fold over the batch followed by one more insert. |
| `Tables.InsertAllKeepsFirstOccurrences` | main.go:85-96 | From an empty table, the insert fold yields exactly the first row of every id, in file order. |
| `Tables.FirstOccurrencesIds` | main.go:69-100 | The ids kept are exactly the ids of the input rows. |
| `Tables.FirstOccurrencesAreFirstRows` | main.go:85-96 | Every kept row is the first row of its id, and every first row is kept. |
| `Tables.FirstOccurrencesUnique` | main.go:85-96 | No two kept rows share an id. |
| `Tables.FirstRowWins` | main.go:91-94 | When several rows share an id, the first of them is kept and no other row with that id is. |
| `Ingest.ParseMovie` | main.go:80-83 | The title and the rating's parse are taken from the second and fourth fields; a first or third field that is the decimal rendering of an integer yields exactly that integer as id or year. |
| `Ingest.ParseGenre` | main.go:120-121 | The genre is the second field verbatim; a first field that is the decimal rendering of an integer yields exactly that movie id. |
| `Ingest.ParseMovies` | main.go:71-83 | The records of the movies loop become movies one for one, in the same order: the movie at each position is `ParseMovie` of the record at that position. |
| `Ingest.ParseGenres` | main.go:111-121 | The records of the genres loop become genre rows one for one, in the same order, with nothing dropped or merged: the row at each position is `ParseGenre` of the record at that position. |
| `Ingest.LoadMovies` | main.go:71-100 | The movies loop keeps ids unique and never removes an id already in the table. |
| `Ingest.LoadGenres` | main.go:111-127 | The genres loop only appends: the starting table is a prefix of the result. |
| `Ingest.LoadMoviesMeaning` | main.go:71-100 | The movies loop ends as `Ending` dictates, with the table equal to the insert fold of the parsed consumed records. |
| `Ingest.LoadGenresMeaning` | main.go:111-127 | The genres loop ends as `Ending` dictates, with the table equal to the start plus every parsed consumed record. |
| `Ingest.Populate` | main.go:54-130 | Whatever the outcome, completed or aborted, no two rows of the movies table share an id. |
| `Ingest.HeaderIsDiscarded` | main.go:69 | Replacing the first read of either file with any other read does not change the run. |
| `Ingest.PopulateCompletesIff` | main.go:62-117 | A run completes iff both files open and both loops end normally. A reader error whose text is not "EOF", or a short record, before a loop's stop makes the run abort; reads after the stop are never looked at. |
| `Ingest.CompletedRunTables` | main.go:54-130 | After a completed run, every record before end of file in both files was consumed. The movies table is the first record of each id in file order. The genres table is every genre record in order, orphans included. |
| `Ingest.CompletedMovies` | main.go:85-96 | After a completed run, the movies table has unique ids and its id set is the set of parsed ids of the data records. It holds every first record of an id and nothing else. |
| `Ingest.UnopenableMoviesFile` | main.go:56-65 | An unopenable movies file aborts the run right after the clear and leaves both tables empty. |
| `Ingest.MoviesFileFault` | main.go:71-100 | A fault in the movies file aborts the run with that fault. The genres table stays empty. The movies table holds the first record of each id among the records consumed before the fault. |
| `Ingest.GenresFileFault` | main.go:102-127 | A genres file that cannot be opened, or that hits a fault, aborts the run only after the movies table is fully loaded. The genres table then holds the genre records consumed before the fault. |
| `Ingest.PopulateIgnoresPriorState` | main.go:56 | Because both tables are cleared first, the outcome does not depend on the database's previous contents. |
| `Ingest.PopulateIsIdempotent` | main.go:54-130 | A second run on the same files, over the first run's result, gives the same outcome as the first. |
| `Ingest.ParseMovieOfRendered` | main.go:80-83 | A record rendered from a movie (decimal id and year, the title, the rating text) parses back to that movie. |
| `Ingest.MalformedNumbersBecomeZero` | main.go:80-82 | A non-integer id or year in a movies record is stored as 0. |
| `Ingest.MalformedGenreIdBecomesZero` | main.go:120 | A non-integer movie id in a genres record, which has two fields, is stored as 0. |

## Left out

- Strconv.Atoi: Go's out-of-range handling is not modelled. Go clamps to the int64 range and stops scanning at the overflow. Here integers are unbounded, so the model agrees with Go exactly when the value lies in [-2^63, 2^63-1]; outside that range Go returns the nearer bound and the model the exact value. Text whose digits overflow before a non-digit character (such as "99999999999999999999x") reads as the bound in Go, because Go stops scanning at the overflow, and as 0 in the model, which rejects it as malformed.
- The rating value: `strconv.ParseFloat` is a float parser from the library, so it is the parameter `parseRating`. Its zero-on-error behaviour is whatever that function returns.
- SQLite: opening the database and creating the schema (main.go:33-42), the SQL text, and errors from the delete, count or insert statements. Also left out: the auto-assigned key of genre rows, and the foreign key, which is declared but not enforced. Each table is a sequence of rows in insertion order.
- CSV tokenising, quoting and field-count checking: `encoding/csv` is library code. A file is a sequence of pre-split records and reader errors. Its field-count errors appear as `Failure` reads. With `FieldsPerRecord` left at 0, the reader takes the expected width from the header read, so a data record whose width differs from the header's is such a `Failure`; a `ShortRecord` fault arises only when the header itself has fewer than 4 (movies) or 2 (genres) fields. `Ingest.HeaderIsDiscarded` is a statement about a fixed sequence of reads, not about editing a file's header line.
- The reporting query `exampleQuery` (main.go:132-160): its join, ordering and limit are SQLite's, and its output is formatted console text.
- Console output (progress lines, the per-duplicate skip notice), the `log.Fatalf` exit, closing files and the final keypress wait (main.go:50-51). These are I/O. A fatal error is the `Aborted` outcome.
- The two-statement clear is not atomic. A crash between the two deletes is outside this sequential model.
