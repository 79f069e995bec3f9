/**
 * The three MySQL tables behind `MovieModel` (clase-5/models/mysql/movie.js), held as values:
 *   movie         rows keyed by a UUID,
 *   genre         read-only reference rows (id, name),
 *   movie_genres  a set of (movie_id, genre_id) link pairs.
 * Every SQL statement of the model becomes a table operation on a `Db` value, and every method of
 * `MovieModel` becomes a function from the tables before the call to the tables after it together
 * with the caller-visible result.
 */
module MovieTables {

  datatype Option<T> = None | Some(value: T)

  datatype Result<T, E> = Success(value: T) | Failure(error: E)

  /** A movie id in its canonical string form; the binary storage form is not modelled. */
  type Uuid = string

  type GenreId = int

  /** The scalar columns of a `movie` row. `rate` is a DECIMAL column, kept as the text the driver returns. */
  datatype Movie = Movie(title: string, year: int, director: string, duration: int, poster: string, rate: string)

  /** A movie as the reads return it: the id in string form and the six scalar columns. */
  datatype FullMovie = FullMovie(id: Uuid, movie: Movie)

  /** A row of the genre-filtered listing, which carries only `movieID` and `title`. */
  datatype MovieRef = MovieRef(movieID: Uuid, title: string)

  /** What `getAll` returns: all movies with every column, or the two-column rows of a genre filter. */
  datatype Listing = AllMovies(rows: set<FullMovie>) | ByGenre(refs: set<MovieRef>)

  /** A `movie_genres` row. */
  datatype Link = Link(movieId: Uuid, genreId: GenreId)

  datatype Db = Db(movie: map<Uuid, Movie>, genre: map<GenreId, string>, movieGenres: set<Link>)

  /** The `input` object of `create` and `update`; `genre` is the optional array of genre names. */
  datatype MovieInput = MovieInput(genre: Option<seq<string>>, fields: Movie)

  /** The generic errors every caught failure is collapsed into. */
  datatype StoreError = CreateFailed | UpdateFailed | DeleteFailed
  {
    function Message(): string
    {
      match this
      case CreateFailed => "Error creating movie"
      case UpdateFailed => "Error updating movie"
      case DeleteFailed => "Error deleting movie"
    }
  }

  const MovieDeleted: string := "Movie deleted"

  /** The tables after an operation, and what the operation returned or threw. */
  datatype Step<T> = Step(db: Db, result: Result<T, StoreError>)

  /** Foreign keys of `movie_genres`: every link names an existing movie and an existing genre. */
  predicate Consistent(db: Db)
  {
    forall l :: l in db.movieGenres ==> l.movieId in db.movie && l.genreId in db.genre
  }

  // ---------------------------------------------------------------- lower-casing

  function LowerChar(c: char): (d: char)
    ensures !('A' <= d <= 'Z')
    ensures 'A' <= c <= 'Z' || d == c
  {
    if 'A' <= c <= 'Z' then (c as int - 'A' as int + 'a' as int) as char else c
  }

  /** `String.prototype.toLowerCase` and SQL `LOWER`, on the ASCII letters. */
  function Lower(s: string): (r: string)
    ensures |r| == |s|
    ensures forall i :: 0 <= i < |s| ==> r[i] == LowerChar(s[i])
  {
    if s == [] then [] else [LowerChar(s[0])] + Lower(s[1..])
  }

  // ---------------------------------------------------------------- genre lookups

  /**
   * The genres whose lower-cased name equals the (already lower-cased) filter. Since lower-casing a
   * lower-cased name changes nothing, a filter that is not itself lower-case matches no genre.
   */
  function MatchingGenres(genre: map<GenreId, string>, wanted: string): (ids: set<GenreId>)
    ensures forall g :: g in ids <==> g in genre && Lower(genre[g]) == wanted
    ensures Lower(wanted) != wanted ==> ids == {}
  {
    set g | g in genre && Lower(genre[g]) == wanted
  }

  /** The least member of a non-empty set of genre ids, found by removing one member at a time. */
  lemma {:induction false} LeastMember(ids: set<GenreId>) returns (m: GenreId)
    requires ids != {}
    ensures m in ids
    ensures forall h :: h in ids ==> m <= h
  {
    if forall h :: h !in ids {
      assert false;
    }
    var x :| x in ids;
    if ids == {x} {
      m := x;
    } else {
      var rest := ids - {x};
      var r := LeastMember(rest);
      m := if x < r then x else r;
      assert forall h :: h in ids ==> h == x || h in rest;
    }
  }

  lemma LeastExists(ids: set<GenreId>)
    requires ids != {}
    ensures exists g :: g in ids && forall h :: h in ids ==> g <= h
  {
    var m := LeastMember(ids);
  }

  /**
   * The first row of a lookup on `genre`. The lookup has no `ORDER BY`, so which matching row comes
   * first is up to the engine; the model assumes the one with the least id.
   */
  function LeastOf(ids: set<GenreId>): (g: GenreId)
    requires ids != {}
    ensures g in ids
    ensures forall h :: h in ids ==> g <= h
  {
    LeastExists(ids);
    var g :| g in ids && forall h :: h in ids ==> g <= h;
    g
  }

  /**
   * The batch genre lookup: the ids whose name is exactly one of the given names. An absent list
   * is bound as NULL and an empty one makes the statement fail; either way nothing is selected.
   */
  function ResolveGenres(genre: map<GenreId, string>, names: Option<seq<string>>): (ids: set<GenreId>)
    ensures forall g :: g in ids <==> names.Some? && g in genre && genre[g] in names.value
  {
    match names
    case None => {}
    case Some(ns) => set g | g in genre && genre[g] in ns
  }

  // ---------------------------------------------------------------- link rows

  lemma {:induction false} LinkImageCount(id: Uuid, ids: set<GenreId>)
    ensures |set g | g in ids :: Link(id, g)| == |ids|
  {
    if ids != {} {
      if forall g :: g !in ids {
        assert false;
      }
      var g :| g in ids;
      var rest := ids - {g};
      LinkImageCount(id, rest);
      assert (set h | h in ids :: Link(id, h)) == (set h | h in rest :: Link(id, h)) + {Link(id, g)};
      assert Link(id, g) !in (set h | h in rest :: Link(id, h));
      assert ids == rest + {g};
    }
  }

  /** The link rows inserted for one movie: one row per genre id, and no other. */
  function LinksFor(id: Uuid, ids: set<GenreId>): (r: set<Link>)
    ensures forall l :: l in r <==> l.movieId == id && l.genreId in ids
    ensures |r| == |ids|
  {
    LinkImageCount(id, ids);
    set g | g in ids :: Link(id, g)
  }

  // ---------------------------------------------------------------- reads

  lemma {:induction false} RowImageCount(movie: map<Uuid, Movie>)
    ensures |set id | id in movie :: FullMovie(id, movie[id])| == |movie|
  {
    if movie != map[] {
      if forall id :: id !in movie {
        assert false;
      }
      var id :| id in movie;
      var rest := movie - {id};
      RowImageCount(rest);
      var all := set k | k in movie :: FullMovie(k, movie[k]);
      var part := set k | k in rest :: FullMovie(k, rest[k]);
      forall row | row in all
        ensures row in part + {FullMovie(id, movie[id])}
      {
        var k :| k in movie && row == FullMovie(k, movie[k]);
        if k != id {
          assert row == FullMovie(k, rest[k]);
        }
      }
      assert all == part + {FullMovie(id, movie[id])};
      assert FullMovie(id, movie[id]) !in part;
      assert movie.Keys == rest.Keys + {id};
    }
  }

  /** Every `movie` row with all seven columns: one row per movie, and no other. */
  function Rows(movie: map<Uuid, Movie>): (rows: set<FullMovie>)
    ensures forall row :: row in rows <==> row.id in movie && movie[row.id] == row.movie
    ensures |rows| == |movie|
  {
    RowImageCount(movie);
    set id | id in movie :: FullMovie(id, movie[id])
  }

  /** The movies linked to genre `g` (the join of `movie_genres` with `movie`), as (movieID, title). */
  function LinkedTo(db: Db, g: GenreId): (refs: set<MovieRef>)
    ensures forall r :: r in refs ==> r.movieID in db.movie && db.movie[r.movieID].title == r.title
  {
    set l | l in db.movieGenres && l.genreId == g && l.movieId in db.movie :: MovieRef(l.movieId, db.movie[l.movieId].title)
  }

  /**
   * `getAll({ genre })`. A filter that is absent or the empty string (falsy in JavaScript) lists every
   * movie. Otherwise it is lower-cased and compared with the lower-cased genre names; when nothing
   * matches the result is `[]`, else only the first matching genre is used.
   */
  function GetAll(db: Db, genre: Option<string>): (r: Listing)
    ensures (genre.None? || genre == Some("")) <==> r.AllMovies?
    ensures r.AllMovies? ==> forall row :: row in r.rows ==> row.id in db.movie && db.movie[row.id] == row.movie
    ensures r.ByGenre? ==> forall ref :: ref in r.refs ==> ref.movieID in db.movie && db.movie[ref.movieID].title == ref.title
  {
    if genre.Some? && genre.value != "" then
      var matches := MatchingGenres(db.genre, Lower(genre.value));
      if matches == {} then ByGenre({}) else ByGenre(LinkedTo(db, LeastOf(matches)))
    else
      AllMovies(Rows(db.movie))
  }

  /**
   * `getById({ id })`: the row with this id, or `null`. It is the search of the unfiltered listing
   * for that id: `null` exactly when no listed row has the id, and otherwise a listed row.
   */
  function GetById(db: Db, id: Uuid): (r: Option<FullMovie>)
    ensures r.Some? <==> exists row :: row in Rows(db.movie) && row.id == id
    ensures r.Some? ==> r.value in Rows(db.movie) && r.value.id == id
  {
    if id in db.movie then Some(FullMovie(id, db.movie[id])) else None
  }

  // ---------------------------------------------------------------- writes

  /**
   * `create({ input })` with `uuid` the id the server generated. The movie row is inserted
   * first (an id already present is a duplicate-key failure). When no genre name resolves, the error
   * is thrown after the insert, so the row stays without links. Otherwise one link per resolved genre
   * is inserted and the row is read back.
   */
  function Create(db: Db, uuid: Uuid, input: MovieInput): (s: Step<FullMovie>)
    ensures s.db.genre == db.genre
    ensures s.result.Failure? ==> s.result.error == CreateFailed
  {
    if uuid in db.movie then Step(db, Failure(CreateFailed))
    else
      var inserted := db.(movie := db.movie[uuid := input.fields]);
      var ids := ResolveGenres(db.genre, input.genre);
      if ids == {} then Step(inserted, Failure(CreateFailed))
      else
        var linked := inserted.(movieGenres := inserted.movieGenres + LinksFor(uuid, ids));
        Step(linked, Success(GetById(linked, uuid).value))
  }

  /**
   * `update({ id, input })`. A missing id fails before anything is written. Otherwise the six scalar
   * columns are overwritten; when a non-empty genre list is given, the movie's links are deleted and
   * one is inserted per resolved genre; and the row is read back.
   */
  function Update(db: Db, id: Uuid, input: MovieInput): (s: Step<FullMovie>)
    ensures s.db.genre == db.genre
    ensures s.result.Failure? ==> s.result.error == UpdateFailed
  {
    if id !in db.movie then Step(db, Failure(UpdateFailed))
    else
      var overwritten := db.(movie := db.movie[id := input.fields]);
      var relinked :=
        if input.genre.Some? && input.genre.value != [] then
          var ids := ResolveGenres(db.genre, input.genre);
          overwritten.(movieGenres := (set l | l in overwritten.movieGenres && l.movieId != id) + LinksFor(id, ids))
        else overwritten;
      Step(relinked, Success(GetById(relinked, id).value))
  }

  /**
   * `delete({ id })`. The links go first, then the movie row; success is judged by the number of
   * movie rows the second statement removed. The link deletion stands even when that count is 0.
   */
  function Delete(db: Db, id: Uuid): (s: Step<string>)
    ensures s.db.genre == db.genre
    ensures s.result.Failure? ==> s.result.error == DeleteFailed
  {
    var unlinked := db.(movieGenres := set l | l in db.movieGenres && l.movieId != id);
    var affectedRows := if id in unlinked.movie then 1 else 0;
    var removed := unlinked.(movie := unlinked.movie - {id});
    if affectedRows == 1 then Step(removed, Success(MovieDeleted)) else Step(removed, Failure(DeleteFailed))
  }
}
