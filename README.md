# Movie store: the MySQL movie/genre access layer as verified Dafny

This project models `MovieModel` from `clase-5/models/mysql/movie.js`. That class is the data-access
layer of a small movies API. Its five operations are `getAll`, `getById`, `create`, `update` and
`delete`. Each runs a fixed sequence of SQL statements against three tables:

- `movie`: rows keyed by a UUID, with six scalar columns (title, year, director, duration, poster, rate);
- `genre`: read-only reference rows `(id, name)`;
- `movie_genres`: link pairs `(movie_id, genre_id)`.

The MySQL connection is replaced by in-memory tables. Each SQL statement becomes a table operation:
a lookup, a filter, an insertion or a removal.

- `tables.dfy`, module `MovieTables`: the data model. It holds the tables as one `Db` value, the two
  reads as pure functions (`GetAll`, `GetById`), and the three writes as functions (`Create`,
  `Update`, `Delete`). Each write function maps the tables before the call to a `Step`: the tables
  after the call plus the returned value or the thrown generic error.
- `properties.dfy`, module `MovieProperties`: lemmas about these functions. They cover the result of
  each operation, what it changes and what it leaves alone, the error cases, and the reads after a
  write. They also show that the foreign keys of `movie_genres` are preserved, and walk through one
  create/update/delete session.
- `movie_model.dfy`, module `MovieStore`: the class `MovieModel`. Its fields are the three tables;
  `genre` is a `const` because this layer never writes it. `Create`, `Update` and `Delete` perform
  the statements one by one. Each is proved to produce exactly the tables and the result that the
  matching `MovieTables` function gives for the old tables, and to keep the foreign keys intact. The
  reads are `MovieTables.GetAll` and `MovieTables.GetById` applied to `State()`.

Modelling choices:

- Query results are sets of rows. SQL without `ORDER BY` promises no order, and ids are unique, so
  no row can appear twice.
- The genre lookup in `getAll` has no `ORDER BY`, so which matching row comes first is left to the
  engine. The model assumes it is the matching genre with the least id (see "## Left out").
- Lower-casing (`toLowerCase` on the filter, `LOWER` on genre names) is modelled on ASCII letters only.
- The `name IN (...)` lookup is exact membership of the name in the given list.
- `create` gets the generated UUID as a parameter. If that id is already present, the movie insert
  fails on the primary key, and the catch turns this into the generic error.
- JavaScript's `if (genre)` treats the empty string as no filter, so `GetAll(db, Some(""))` lists
  every movie.

Error paths, as the code behaves:

- `update` on a missing id throws "Movie not found", and the catch replaces it with the generic
  "Error updating movie". There is no separate not-found error.
- `delete` of a missing id throws "Movie not found" inside the `try`, so the caller sees only
  "Error deleting movie".
- `create` whose genre names do not resolve fails with the generic "Error creating movie".
- The link deletion of `delete` stands even when no movie row is removed.

## Model

| member | source | states |
|---|---|---|
| MovieTables.Lower | clase-5/models/mysql/movie.js:19-23 | the lower-cased string has the same length, and each character is mapped on its own, so no upper-case ASCII letter is left |
| MovieTables.MatchingGenres | clase-5/models/mysql/movie.js:22-25 | the genre ids whose lower-cased name equals the filter; a filter that is not itself lower-case matches nothing, because lower-casing is idempotent |
| MovieTables.LeastOf | clase-5/models/mysql/movie.js:30-31 | the chosen genre is one of the matches, and no match has a smaller id |
| MovieTables.LinksFor | clase-5/models/mysql/movie.js:101-113 | one link row (movie id, g) for each resolved genre g and no other, so as many rows as resolved genres |
| MovieTables.Rows | clase-5/models/mysql/movie.js:47-49 | a row is listed iff its id is in `movie` with those six columns, and there are exactly as many rows as movies |
| MovieTables.LinkedTo | clase-5/models/mysql/movie.js:36-42 | every joined row is an existing movie with its own title |
| MovieTables.GetAll | clase-5/models/mysql/movie.js:15-52 | the full-column shape comes back iff the filter is absent or empty; every listed row or (movieID, title) pair belongs to an existing movie |
| MovieTables.GetById | clase-5/models/mysql/movie.js:54-64 | agrees with the unfiltered listing: `null` iff no listed row has the id, otherwise the listed row with that id |
| MovieTables.Create | clase-5/models/mysql/movie.js:66-129 | the genre table is unchanged; the only error is "Error creating movie" |
| MovieTables.Update | clase-5/models/mysql/movie.js:158-228 | the genre table is unchanged; the only error is "Error updating movie" |
| MovieTables.Delete | clase-5/models/mysql/movie.js:131-156 | the genre table is unchanged; the only error is "Error deleting movie" |
| MovieProperties.GetAllIsCaseInsensitive | clase-5/models/mysql/movie.js:18-25 | two filters whose lower-cased forms are equal give the same listing |
| MovieProperties.GetAllLowercasesFilter | clase-5/models/mysql/movie.js:19 | lower-casing the filter beforehand changes nothing |
| MovieProperties.GetAllUnknownGenreIsEmpty | clase-5/models/mysql/movie.js:18-28 | a non-empty filter that matches no genre name gives the empty listing |
| MovieProperties.GetAllByGenreListsLinkedMovies | clase-5/models/mysql/movie.js:30-44 | with a match, only the least matching genre id is used; the pair (m, t) is listed iff m is linked to it and is a movie titled t |
| MovieProperties.GetAllUnfilteredListsEveryMovie | clase-5/models/mysql/movie.js:47-51 | without a filter every movie is listed with all seven columns, nothing else is, and there is exactly one row per movie |
| MovieProperties.ResolveGenresDependsOnNameSet | clase-5/models/mysql/movie.js:91-94 | the `name IN (...)` lookup depends only on which names the list holds, not on their order or repetitions (the same holds for the lookup at lines 191-194) |
| MovieProperties.CreateSucceedsIff | clase-5/models/mysql/movie.js:82-120 | `create` succeeds iff the id is new and at least one genre name resolves; otherwise it fails with "Error creating movie" |
| MovieProperties.CreateStoresMovieAndLinks | clase-5/models/mysql/movie.js:84-128 | on success the row is stored under the new id, the movie is linked to exactly the genres named in the list, other links are kept, and the returned row is what `getById` then finds |
| MovieProperties.CreateWithoutGenresKeepsRow | clase-5/models/mysql/movie.js:84-100 | when no name resolves, `create` fails and the only change is the inserted movie row, which `getById` still finds |
| MovieProperties.CreateDuplicateIdChangesNothing | clase-5/models/mysql/movie.js:84-88 | an id that is already taken fails the insert, and no table changes |
| MovieProperties.DeleteSucceedsIff | clase-5/models/mysql/movie.js:141-155 | `delete` returns 'Movie deleted' iff a movie row with the id existed; otherwise it fails with "Error deleting movie" |
| MovieProperties.DeleteRemovesMovieAndLinks | clase-5/models/mysql/movie.js:133-145 | the movie row and exactly its links are removed, nothing else; `getById` then returns `null` |
| MovieProperties.DeleteMissingChangesNothing | clase-5/models/mysql/movie.js:133-155 | with the foreign keys in place, deleting a missing id fails and changes no table |
| MovieProperties.UpdateMissingChangesNothing | clase-5/models/mysql/movie.js:170-178 | `update` on a missing id fails with "Error updating movie" and changes no table |
| MovieProperties.UpdateOverwritesMovie | clase-5/models/mysql/movie.js:180-223 | on an existing id the six scalar columns are overwritten and other movies are kept; a non-empty genre list makes the links exactly the resolved genres; an absent or empty list leaves all links as they were; the result is what `getById` then finds |
| MovieProperties.CreatePreservesConsistency | clase-5/models/mysql/movie.js:84-113 | after `create` every link still names an existing movie and genre |
| MovieProperties.UpdatePreservesConsistency | clase-5/models/mysql/movie.js:180-213 | after `update` every link still names an existing movie and genre |
| MovieProperties.DeletePreservesConsistency | clase-5/models/mysql/movie.js:133-145 | after `delete` every link still names an existing movie and genre, because links are removed along with their movie |
| MovieProperties.InceptionCreated | clase-5/models/mysql/movie.js:66-129 | creating a movie with two known genre names gives exactly the stored row plus one link per genre, and returns that row |
| MovieProperties.InceptionUpdated | clase-5/models/mysql/movie.js:158-228 | updating it with only an unknown genre name keeps its columns and leaves it with no links |
| MovieProperties.InceptionDeleted | clase-5/models/mysql/movie.js:131-156 | deleting it then reports 'Movie deleted' and leaves an empty `movie` table |
| MovieProperties.InceptionSession | clase-5/models/mysql/movie.js:66-228 | one session: the created row is read back, the update keeps the columns, and the delete restores the starting tables, after which `getById` returns `null` |
| MovieStore.MovieModel.constructor | clase-5/models/mysql/movie.js:10-12 | a store starts with a seeded `genre` table and empty `movie` and `movie_genres` tables, which satisfy the foreign keys |
| MovieStore.MovieModel.Create | clase-5/models/mysql/movie.js:66-129 | running the statements one by one gives exactly the tables and result of `MovieTables.Create`, and keeps the foreign keys |
| MovieStore.MovieModel.Update | clase-5/models/mysql/movie.js:158-228 | running the statements one by one gives exactly the tables and result of `MovieTables.Update`, and keeps the foreign keys |
| MovieStore.MovieModel.Delete | clase-5/models/mysql/movie.js:131-156 | running the statements one by one gives exactly the tables and result of `MovieTables.Delete`, and keeps the foreign keys |

## Left out

- The MySQL connection, its configuration and the `DATABASE_URL` lookup (clase-5/models/mysql/movie.js:1-12). They are replaced by the class fields.
- UUID generation and the conversions between string and binary ids. Ids are opaque strings, and the generated id is a parameter of `Create`. Because of this, a malformed id string passed to `getById` returns `null` in the model, where MySQL would raise an error.
- Building SQL text and placeholder lists, including the interpolated uuid in the insert. This is query plumbing with no behaviour of its own.
- Collation: MySQL's case- and padding-insensitive string comparison in `name IN (...)` and `LOWER(name) = ?`. The lookup is exact, and lower-casing covers only ASCII letters (no Unicode case mapping).
- Row order of the listings: results are sets, not arrays.
- MovieTables.LeastOf: the genre lookup of `getAll` has no `ORDER BY`, so the row it takes first is unspecified; the model assumes the matching genre with the least id, which a database is free not to return.
- Statement failures other than a duplicate movie id. Examples are constraint violations on column values, connection loss, and the `SELECT UUID()` call failing outside the `try`. The generic-error collapse is modelled only for the failures the model can produce.
- Partial input to `update`: the model's input always carries all six columns. In the source, a missing field is bound as NULL.
- The numeric meaning of the DECIMAL `rate`: it is stored as opaque text.
- Logging through `console.log` and `console.error`: it has no effect on the tables or results.
- Concurrency and the lack of transactions: every method is one sequential, atomic step.
- node-js-user-auth/index.js (Express routes, JWT and cookies) and clase-4/app.js (app bootstrap) are not part of this model. Both are framework glue.
