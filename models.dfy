/**
 * The two mapped classes of the schema, `User` (table `users`) and `Movie`
 * (table `movies`), the constraints their columns declare, and the
 * `User.movies` relationship with its `all, delete-orphan` cascade.
 */
module Models {
  import opened Wrappers

  /** A stored row of `users`. `name` is NOT NULL, so a stored row always has one. */
  datatype User = User(id: int, name: string)

  /**
   * A stored row of `movies`. Every column is NOT NULL. `rating` is a Float
   * column; it is kept opaque as the type parameter R.
   */
  datatype Movie<R> = Movie(id: int, name: string, director: string, year: int, rating: R, userId: int)

  /** A transient `User(...)` object built by a caller: any attribute may still be None. */
  datatype UserInput = UserInput(id: Option<int>, name: Option<string>)

  /** A transient `Movie(...)` object built by a caller: any attribute may still be None. */
  datatype MovieInput<R> = MovieInput(
    id: Option<int>, name: Option<string>, director: Option<string>,
    year: Option<int>, rating: Option<R>, userId: Option<int>)

  /**
   * The database: both tables keyed by primary key, and for each table the
   * next id its autoincrementing primary key hands out.
   */
  datatype Db<R> = Db(users: map<int, User>, movies: map<int, Movie<R>>, nextUserId: int, nextMovieId: int)

  /** A database file that `create_all` has just created. */
  function EmptyDb<R>(): (db: Db<R>)
    ensures Consistent(db)
  {
    Db(map[], map[], 1, 1)
  }

  /** `users.id` is the primary key: each row sits under its own id, and ids handed out so far lie below the counter. */
  ghost predicate UserKeys<R>(db: Db<R>)
  {
    forall k :: k in db.users ==> db.users[k].id == k && 1 <= k < db.nextUserId
  }

  /** `movies.id` is the primary key, in the same sense. */
  ghost predicate MovieKeys<R>(db: Db<R>)
  {
    forall k :: k in db.movies ==> db.movies[k].id == k && 1 <= k < db.nextMovieId
  }

  /** `movies.user_id` is a NOT NULL foreign key to `users.id`. */
  ghost predicate ForeignKeys<R>(db: Db<R>)
  {
    forall k :: k in db.movies ==> db.movies[k].userId in db.users
  }

  /** Every constraint the schema declares. */
  ghost predicate Consistent<R>(db: Db<R>)
  {
    1 <= db.nextUserId && 1 <= db.nextMovieId && UserKeys(db) && MovieKeys(db) && ForeignKeys(db)
  }

  /** The NOT NULL columns of `movies` that a transient movie supplies. */
  predicate HasAllColumns<R>(movie: MovieInput<R>)
  {
    movie.name.Some? && movie.director.Some? && movie.year.Some? && movie.rating.Some?
  }

  /** `user.movies`: the rows of `movies` whose `user_id` is the user's id. */
  ghost function MoviesOf<R>(db: Db<R>, userId: int): (owned: set<Movie<R>>)
  {
    set k | k in db.movies && db.movies[k].userId == userId :: db.movies[k]
  }

  /** Primary keys are unique: two different rows of a table never share an id. */
  lemma IdsUnique<R>(db: Db<R>, j: int, k: int)
    requires Consistent(db)
    ensures j in db.users && k in db.users && j != k ==> db.users[j].id != db.users[k].id
    ensures j in db.movies && k in db.movies && j != k ==> db.movies[j].id != db.movies[k].id
  {
  }

  /** A user's movies all name that user as owner, and each is stored under its own id. */
  lemma MoviesOfStored<R>(db: Db<R>, userId: int, m: Movie<R>)
    requires Consistent(db)
    ensures m in MoviesOf(db, userId) <==> m.id in db.movies && db.movies[m.id] == m && m.userId == userId
  {
  }

  /** With foreign keys in place, an id no user has owns no movie. */
  lemma NoMoviesOfMissingUser<R>(db: Db<R>, userId: int)
    requires Consistent(db) && userId !in db.users
    ensures MoviesOf(db, userId) == {}
  {
  }

  /**
   * `session.delete(user)`: the `all` cascade on `User.movies` deletes every
   * movie of that user together with the user row.
   */
  function DeleteUserCascade<R>(db: Db<R>, userId: int): (r: Db<R>)
    requires userId in db.users
  {
    db.(users := db.users - {userId},
        movies := map k | k in db.movies && db.movies[k].userId != userId :: db.movies[k])
  }

  /**
   * A plain SQL `DELETE FROM users` for that id, run with SQLite's foreign-key
   * enforcement off: only the user row goes. (The ORM without the cascade
   * would instead set each child's `user_id` to NULL, which the NOT NULL
   * on `movies.user_id` refuses at flush.)
   */
  function DeleteUserAlone<R>(db: Db<R>, userId: int): (r: Db<R>)
    requires userId in db.users
  {
    db.(users := db.users - {userId})
  }

  /**
   * The cascade keeps every constraint, removes exactly the deleted user's
   * movies and leaves every other row as it was.
   */
  lemma DeleteUserCascadeCorrect<R>(db: Db<R>, userId: int)
    requires Consistent(db) && userId in db.users
    ensures var r := DeleteUserCascade(db, userId);
      && Consistent(r)
      && r.users.Keys == db.users.Keys - {userId}
      && (forall k :: k in r.users ==> r.users[k] == db.users[k])
      && (forall k :: k in db.movies ==> (k in r.movies <==> db.movies[k].userId != userId))
      && (forall k :: k in r.movies ==> r.movies[k] == db.movies[k])
      && MoviesOf(r, userId) == {}
  {
  }

  /** Without the cascade, deleting a user who owns a movie leaves a dangling foreign key. */
  lemma DeleteUserAloneOrphans<R>(db: Db<R>, userId: int)
    requires Consistent(db) && userId in db.users && MoviesOf(db, userId) != {}
    ensures !ForeignKeys(DeleteUserAlone(db, userId))
  {
  }

  /**
   * `user.movies.remove(movie)`: `user_id` cannot become NULL, and the
   * `delete-orphan` cascade deletes the detached movie instead.
   */
  function DetachMovie<R>(db: Db<R>, userId: int, movieId: int): (r: Db<R>)
    requires movieId in db.movies && db.movies[movieId].userId == userId
  {
    db.(movies := db.movies - {movieId})
  }

  /** Detaching deletes exactly that movie from the user's collection and keeps every constraint. */
  lemma {:induction false} DetachMovieCorrect<R>(db: Db<R>, userId: int, movieId: int)
    requires Consistent(db) && movieId in db.movies && db.movies[movieId].userId == userId
    ensures var r := DetachMovie(db, userId, movieId);
      && Consistent(r)
      && r.users == db.users
      && movieId !in r.movies
      && MoviesOf(r, userId) == MoviesOf(db, userId) - {db.movies[movieId]}
  {
    var r := DetachMovie(db, userId, movieId);
    forall m | m in MoviesOf(db, userId) - {db.movies[movieId]}
      ensures m in MoviesOf(r, userId)
    {
      MoviesOfStored(db, userId, m);
      assert m.id in r.movies && r.movies[m.id] == m;
    }
  }
}
