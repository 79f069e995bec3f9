/**
 * What the operations of `MovieModel` promise, stated over the table transitions of `MovieTables`.
 */
module MovieProperties {
  import opened MovieTables

  // ---------------------------------------------------------------- getAll

  /** The filter is compared case-insensitively: two filters that lower-case alike list the same rows. */
  lemma GetAllIsCaseInsensitive(db: Db, a: string, b: string)
    requires Lower(a) == Lower(b)
    ensures GetAll(db, Some(a)) == GetAll(db, Some(b))
  {
  }

  /** Lower-casing the filter first changes nothing. */
  lemma GetAllLowercasesFilter(db: Db, s: string)
    ensures GetAll(db, Some(s)) == GetAll(db, Some(Lower(s)))
  {
  }

  /** A non-empty filter that names no genre gives `[]`. */
  lemma GetAllUnknownGenreIsEmpty(db: Db, s: string)
    requires s != ""
    requires forall g :: g in db.genre ==> Lower(db.genre[g]) != Lower(s)
    ensures GetAll(db, Some(s)) == ByGenre({})
  {
  }

  /**
   * A non-empty filter that matches some genre uses the matching genre with the least id, and lists
   * exactly the movies linked to it, each as (movieID, title).
   */
  lemma GetAllByGenreListsLinkedMovies(db: Db, s: string, first: GenreId)
    requires s != ""
    requires first in db.genre && Lower(db.genre[first]) == Lower(s)
    requires forall g :: g in db.genre && Lower(db.genre[g]) == Lower(s) ==> first <= g
    ensures GetAll(db, Some(s)).ByGenre?
    ensures forall m, t :: MovieRef(m, t) in GetAll(db, Some(s)).refs <==>
      Link(m, first) in db.movieGenres && m in db.movie && db.movie[m].title == t
  {
  }

  /**
   * Without a filter, or with the empty string, every movie is listed with all its columns, nothing
   * else is, and there is one row per movie.
   */
  lemma GetAllUnfilteredListsEveryMovie(db: Db, genre: Option<string>)
    requires genre.None? || genre == Some("")
    ensures GetAll(db, genre).AllMovies?
    ensures forall id :: id in db.movie ==> FullMovie(id, db.movie[id]) in GetAll(db, genre).rows
    ensures forall row :: row in GetAll(db, genre).rows ==> row.id in db.movie && db.movie[row.id] == row.movie
    ensures |GetAll(db, genre).rows| == |db.movie|
  {
  }

  // ---------------------------------------------------------------- genre lists

  /**
   * The genre lookup of `create` and `update` depends only on which names the list holds: their
   * order and repetitions do not matter.
   */
  lemma ResolveGenresDependsOnNameSet(genre: map<GenreId, string>, a: seq<string>, b: seq<string>)
    requires forall n :: n in a <==> n in b
    ensures ResolveGenres(genre, Some(a)) == ResolveGenres(genre, Some(b))
  {
  }

  // ---------------------------------------------------------------- create

  /** `create` succeeds exactly when the id is new and some genre name resolves. */
  lemma CreateSucceedsIff(db: Db, uuid: Uuid, input: MovieInput)
    ensures Create(db, uuid, input).result.Success? <==>
      uuid !in db.movie && exists g :: g in db.genre && input.genre.Some? && db.genre[g] in input.genre.value
    ensures Create(db, uuid, input).result.Failure? ==> Create(db, uuid, input).result.error.Message() == "Error creating movie"
  {
    var ids := ResolveGenres(db.genre, input.genre);
    if uuid !in db.movie && ids != {} {
      if forall g :: g !in ids {
        assert false;
      }
      var g :| g in ids;
      assert g in db.genre && db.genre[g] in input.genre.value;
    }
  }

  /**
   * A successful `create` stores the row under the new id, links it to exactly the genres whose name
   * is in the list, leaves every other row alone, and returns what `getById` then finds.
   */
  lemma CreateStoresMovieAndLinks(db: Db, uuid: Uuid, input: MovieInput)
    requires Consistent(db)
    requires uuid !in db.movie
    requires ResolveGenres(db.genre, input.genre) != {}
    ensures Create(db, uuid, input).result == Success(FullMovie(uuid, input.fields))
    ensures Create(db, uuid, input).db.movie == db.movie[uuid := input.fields]
    ensures forall g :: Link(uuid, g) in Create(db, uuid, input).db.movieGenres <==>
      g in db.genre && input.genre.Some? && db.genre[g] in input.genre.value
    ensures forall l: Link :: l.movieId != uuid ==> (l in Create(db, uuid, input).db.movieGenres <==> l in db.movieGenres)
    ensures GetById(Create(db, uuid, input).db, uuid) == Some(Create(db, uuid, input).result.value)
  {
  }

  /**
   * When no genre name resolves, `create` fails with the generic error after the insert: the movie
   * row stays, and no link is added.
   */
  lemma CreateWithoutGenresKeepsRow(db: Db, uuid: Uuid, input: MovieInput)
    requires uuid !in db.movie
    requires forall g :: g in db.genre ==> input.genre.None? || db.genre[g] !in input.genre.value
    ensures Create(db, uuid, input).result == Failure(CreateFailed)
    ensures Create(db, uuid, input).db == db.(movie := db.movie[uuid := input.fields])
    ensures GetById(Create(db, uuid, input).db, uuid) == Some(FullMovie(uuid, input.fields))
  {
    var ids := ResolveGenres(db.genre, input.genre);
    assert forall g :: g !in ids;
  }

  /** An id that is already taken fails the insert, and nothing changes. */
  lemma CreateDuplicateIdChangesNothing(db: Db, uuid: Uuid, input: MovieInput)
    requires uuid in db.movie
    ensures Create(db, uuid, input) == Step(db, Failure(CreateFailed))
  {
  }

  // ---------------------------------------------------------------- delete

  /** `delete` reports 'Movie deleted' exactly when one movie row was removed. */
  lemma DeleteSucceedsIff(db: Db, id: Uuid)
    ensures Delete(db, id).result == Success(MovieDeleted) <==> id in db.movie
    ensures Delete(db, id).result.Failure? ==> Delete(db, id).result.error.Message() == "Error deleting movie"
  {
  }

  /** `delete` removes the movie row and its links, and no other row. */
  lemma DeleteRemovesMovieAndLinks(db: Db, id: Uuid)
    ensures Delete(db, id).db.movie == db.movie - {id}
    ensures forall l :: l in Delete(db, id).db.movieGenres <==> l in db.movieGenres && l.movieId != id
    ensures GetById(Delete(db, id).db, id).None?
  {
  }

  /** On an id with no movie row, `delete` fails; with the foreign keys in place it changes nothing. */
  lemma DeleteMissingChangesNothing(db: Db, id: Uuid)
    requires Consistent(db)
    requires id !in db.movie
    ensures Delete(db, id) == Step(db, Failure(DeleteFailed))
  {
  }

  // ---------------------------------------------------------------- update

  /** `update` on an id with no movie row fails with the generic error and changes nothing. */
  lemma UpdateMissingChangesNothing(db: Db, id: Uuid, input: MovieInput)
    requires id !in db.movie
    ensures Update(db, id, input) == Step(db, Failure(UpdateFailed))
    ensures UpdateFailed.Message() == "Error updating movie"
  {
  }

  /**
   * `update` on an existing id overwrites all six scalar columns and no other movie. A non-empty
   * genre list makes the movie's links exactly the resolved genres (none, when no name resolves);
   * an absent or empty list leaves the links as they were. It returns what `getById` then finds.
   */
  lemma UpdateOverwritesMovie(db: Db, id: Uuid, input: MovieInput)
    requires id in db.movie
    ensures Update(db, id, input).result == Success(FullMovie(id, input.fields))
    ensures Update(db, id, input).db.movie == db.movie[id := input.fields]
    ensures forall l: Link :: l.movieId != id ==> (l in Update(db, id, input).db.movieGenres <==> l in db.movieGenres)
    ensures input.genre.Some? && input.genre.value != [] ==>
      forall g :: Link(id, g) in Update(db, id, input).db.movieGenres <==> g in db.genre && db.genre[g] in input.genre.value
    ensures input.genre.None? || input.genre.value == [] ==> Update(db, id, input).db.movieGenres == db.movieGenres
    ensures GetById(Update(db, id, input).db, id) == Some(Update(db, id, input).result.value)
  {
  }

  // ---------------------------------------------------------------- invariant

  /** `create` keeps the foreign keys of `movie_genres` intact. */
  lemma CreatePreservesConsistency(db: Db, uuid: Uuid, input: MovieInput)
    requires Consistent(db)
    ensures Consistent(Create(db, uuid, input).db)
  {
  }

  /** `update` keeps the foreign keys of `movie_genres` intact. */
  lemma UpdatePreservesConsistency(db: Db, id: Uuid, input: MovieInput)
    requires Consistent(db)
    ensures Consistent(Update(db, id, input).db)
  {
  }

  /** `delete` keeps the foreign keys of `movie_genres` intact: the links go with the movie. */
  lemma DeletePreservesConsistency(db: Db, id: Uuid)
    requires Consistent(db)
    ensures Consistent(Delete(db, id).db)
  {
  }

  // ---------------------------------------------------------------- a session

  /** The seeded `genre` table of the session below. */
  const SessionGenres: map<GenreId, string> := map[1 := "Action", 2 := "Sci-Fi", 3 := "Drama"]

  const Inception: Movie := Movie("Inception", 2010, "Nolan", 148, "url", "8.8")

  /** Creating "Inception" with the genres Action and Sci-Fi stores the row and links both genres. */
  lemma InceptionCreated(uuid: Uuid)
    ensures Create(Db(map[], SessionGenres, {}), uuid, MovieInput(Some(["Action", "Sci-Fi"]), Inception))
      == Step(Db(map[uuid := Inception], SessionGenres, {Link(uuid, 1), Link(uuid, 2)}), Success(FullMovie(uuid, Inception)))
  {
    var db0 := Db(map[], SessionGenres, {});
    var input := MovieInput(Some(["Action", "Sci-Fi"]), Inception);
    var ids := ResolveGenres(SessionGenres, input.genre);
    assert ids == {1, 2};
    var links := LinksFor(uuid, ids);
    assert links == {Link(uuid, 1), Link(uuid, 2)};
    CreateStoresMovieAndLinks(db0, uuid, input);
  }

  /** Updating it with only an unknown genre keeps the columns and clears its links. */
  lemma InceptionUpdated(uuid: Uuid)
    ensures Update(Db(map[uuid := Inception], SessionGenres, {Link(uuid, 1), Link(uuid, 2)}), uuid, MovieInput(Some(["NoSuchGenre"]), Inception))
      == Step(Db(map[uuid := Inception], SessionGenres, {}), Success(FullMovie(uuid, Inception)))
  {
    var input := MovieInput(Some(["NoSuchGenre"]), Inception);
    assert ResolveGenres(SessionGenres, input.genre) == {};
  }

  /** Deleting it then reports 'Movie deleted' and empties the `movie` table again. */
  lemma InceptionDeleted(uuid: Uuid)
    ensures Delete(Db(map[uuid := Inception], SessionGenres, {}), uuid) == Step(Db(map[], SessionGenres, {}), Success(MovieDeleted))
  {
  }

  /**
   * Create "Inception" with the genres Action and Sci-Fi, update it with an unknown genre, delete it:
   * the create is found again, the update keeps the scalar columns, and the delete brings the tables
   * back to where the session started, after which the movie is not found.
   */
  lemma InceptionSession(uuid: Uuid)
    ensures
      var db0 := Db(map[], SessionGenres, {});
      var created := Create(db0, uuid, MovieInput(Some(["Action", "Sci-Fi"]), Inception));
      var updated := Update(created.db, uuid, MovieInput(Some(["NoSuchGenre"]), Inception));
      var deleted := Delete(updated.db, uuid);
      && GetById(created.db, uuid) == Some(FullMovie(uuid, Inception))
      && updated.result == Success(FullMovie(uuid, Inception))
      && deleted == Step(db0, Success(MovieDeleted))
      && GetById(deleted.db, uuid).None?
  {
    InceptionCreated(uuid);
    InceptionUpdated(uuid);
    InceptionDeleted(uuid);
  }
}
