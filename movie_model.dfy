/**
 * `MovieModel` with its MySQL connection replaced by three in-memory tables held as fields. The
 * writes run their statements in the order `MovieModel` runs them, and each is proved to leave
 * the tables and return what the table transition of `MovieTables` prescribes. The reads are the
 * functions `MovieTables.GetAll` and `MovieTables.GetById` applied to `State()`.
 */
module MovieStore {
  import opened MovieTables
  import MovieProperties

  class MovieModel {
    /** The `movie` table. */
    var movies: map<Uuid, Movie>
    /** The `genre` table, which this layer only reads. */
    const genres: map<GenreId, string>
    /** The `movie_genres` table. */
    var movieGenres: set<Link>

    /** A store whose `genre` table is pre-seeded and whose other two tables are empty. */
    constructor (genres: map<GenreId, string>)
      ensures State() == Db(map[], genres, {})
      ensures Consistent(State())
    {
      this.genres := genres;
      movies := map[];
      movieGenres := {};
    }

    function State(): Db
      reads this
    {
      Db(movies, genres, movieGenres)
    }

    /** `create({ input })`, where `uuid` is the id the server generated for the new row. */
    method Create(uuid: Uuid, input: MovieInput) returns (r: Result<FullMovie, StoreError>)
      modifies this
      ensures Step(State(), r) == MovieTables.Create(old(State()), uuid, input)
      ensures old(Consistent(State())) ==> Consistent(State())
    {
      if Consistent(State()) {
        MovieProperties.CreatePreservesConsistency(State(), uuid, input);
      }
      // insert the movie row; an id already present violates the primary key
      if uuid in movies {
        r := Failure(CreateFailed);
        return;
      }
      movies := movies[uuid := input.fields];
      // look up the ids of the named genres
      var genreIds := ResolveGenres(genres, input.genre);
      if genreIds == {} {
        // thrown inside the try block and replaced by the generic error; the row stays
        r := Failure(CreateFailed);
        return;
      }
      // insert one link row per resolved genre
      movieGenres := movieGenres + LinksFor(uuid, genreIds);
      // read the new row back
      var created := GetById(State(), uuid);
      r := Success(created.value);
    }

    /** `update({ id, input })`. */
    method Update(id: Uuid, input: MovieInput) returns (r: Result<FullMovie, StoreError>)
      modifies this
      ensures Step(State(), r) == MovieTables.Update(old(State()), id, input)
      ensures old(Consistent(State())) ==> Consistent(State())
    {
      if Consistent(State()) {
        MovieProperties.UpdatePreservesConsistency(State(), id, input);
      }
      // existence check; its 'Movie not found' is caught and replaced
      if id !in movies {
        r := Failure(UpdateFailed);
        return;
      }
      // overwrite all six scalar columns
      movies := movies[id := input.fields];
      if input.genre.Some? && input.genre.value != [] {
        // look up the ids of the named genres
        var genreIds := ResolveGenres(genres, input.genre);
        // drop the movie's link rows
        movieGenres := set l | l in movieGenres && l.movieId != id;
        // insert the new link rows, only when some genre resolved
        if genreIds != {} {
          movieGenres := movieGenres + LinksFor(id, genreIds);
        }
      }
      // read the row back
      var updated := GetById(State(), id);
      r := Success(updated.value);
    }

    /** `delete({ id })`. */
    method Delete(id: Uuid) returns (r: Result<string, StoreError>)
      modifies this
      ensures Step(State(), r) == MovieTables.Delete(old(State()), id)
      ensures old(Consistent(State())) ==> Consistent(State())
    {
      if Consistent(State()) {
        MovieProperties.DeletePreservesConsistency(State(), id);
      }
      // drop the movie's link rows first
      movieGenres := set l | l in movieGenres && l.movieId != id;
      // then the movie row, counting the rows removed
      var affectedRows := if id in movies then 1 else 0;
      movies := movies - {id};
      if affectedRows == 1 {
        r := Success(MovieDeleted);
      } else {
        // 'Movie not found' is caught and replaced
        r := Failure(DeleteFailed);
      }
    }
  }
}
