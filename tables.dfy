/**
 * What each operation of `SQLiteDataManager` does to the database, as a
 * function from the database before the call to the call's outcome and the
 * database after it, with the lemmas that state the operations' contracts.
 */
module Tables {
  import opened Wrappers
  import opened Models

  /** The exception `session.commit()` raises: an IntegrityError for a NULL in a NOT NULL column. */
  datatype DbError = NotNullViolation

  /** How a data-manager call ends: it returns a value, or an exception leaves it. */
  datatype Outcome<T> = Ok(value: T) | Raised(error: DbError)

  /** A call's outcome together with the database it leaves behind. */
  datatype Step<T, R> = Step(outcome: Outcome<T>, db: Db<R>)

  /**
   * `add_user`: a new row holding only the caller's `name`, under the next
   * id. A missing name fails the INSERT at commit and writes nothing.
   */
  function AddUser<R>(db: Db<R>, user: UserInput): (s: Step<int, R>)
  {
    if user.name.None? then Step(Raised(NotNullViolation), db)
    else
      var id := db.nextUserId;
      Step(Ok(id), db.(users := db.users[id := User(id, user.name.value)], nextUserId := id + 1))
  }

  /**
   * `add_movie`: `None` when no user has `userId`; otherwise a new row with
   * the caller's name, director, year and rating, owned by `userId`.
   */
  function AddMovie<R>(db: Db<R>, movie: MovieInput<R>, userId: int): (s: Step<Option<int>, R>)
  {
    if userId !in db.users then Step(Ok(None), db)
    else if !HasAllColumns(movie) then Step(Raised(NotNullViolation), db)
    else
      var id := db.nextMovieId;
      var row := Movie(id, movie.name.value, movie.director.value, movie.year.value, movie.rating.value, userId);
      Step(Ok(Some(id)), db.(movies := db.movies[id := row], nextMovieId := id + 1))
  }

  /**
   * `update_movie`: overwrite name, director, year and rating of the row
   * with the caller's id; nothing happens when there is no such row.
   */
  function UpdateMovie<R>(db: Db<R>, movie: MovieInput<R>): (s: Step<(), R>)
  {
    if movie.id.None? || movie.id.value !in db.movies then Step(Ok(()), db)
    else if !HasAllColumns(movie) then Step(Raised(NotNullViolation), db)
    else
      var id := movie.id.value;
      var row := db.movies[id].(name := movie.name.value, director := movie.director.value,
                                year := movie.year.value, rating := movie.rating.value);
      Step(Ok(()), db.(movies := db.movies[id := row]))
  }

  /** `delete_movie`: remove the row with that id, if there is one. */
  function DeleteMovie<R>(db: Db<R>, movieId: int): (r: Db<R>)
  {
    if movieId in db.movies then db.(movies := db.movies - {movieId}) else db
  }

  /**
   * `add_user` with a name returns an id no user had and above every id
   * handed out before; the table gains exactly that one row, holding the
   * given name; the movies table is as it was.
   */
  lemma AddUserInserts<R>(db: Db<R>, user: UserInput)
    requires Consistent(db) && user.name.Some?
    ensures var s := AddUser(db, user);
      && s.outcome.Ok?
      && var id := s.outcome.value;
      && id !in db.users
      && (forall k :: k in db.users ==> k < id)
      && s.db.users.Keys == db.users.Keys + {id}
      && |s.db.users| == |db.users| + 1
      && s.db.users[id] == User(id, user.name.value)
      && (forall k :: k in db.users ==> s.db.users[k] == db.users[k])
      && s.db.movies == db.movies
      && Consistent(s.db)
  {
  }

  /** `add_user` without a name raises and changes nothing. */
  lemma AddUserWithoutName<R>(db: Db<R>, user: UserInput)
    requires user.name.None?
    ensures AddUser(db, user) == Step(Raised(NotNullViolation), db)
  {
  }

  /** Only `name` is copied from the caller's object: its `id` plays no part. */
  lemma AddUserCopiesOnlyName<R>(db: Db<R>, a: UserInput, b: UserInput)
    requires a.name == b.name
    ensures AddUser(db, a) == AddUser(db, b)
  {
  }

  /** `add_movie` for an id no user has returns `None` and changes neither table. */
  lemma AddMovieWithoutUser<R>(db: Db<R>, movie: MovieInput<R>, userId: int)
    requires userId !in db.users
    ensures AddMovie(db, movie, userId) == Step(Ok(None), db)
  {
  }

  /**
   * `add_movie` for an existing user, with every column given, returns an id
   * no movie had; the new row carries the given columns and `user_id` equal
   * to the argument (not the caller object's own `user_id`); nothing else
   * changes.
   */
  lemma AddMovieInserts<R>(db: Db<R>, movie: MovieInput<R>, userId: int)
    requires Consistent(db) && userId in db.users && HasAllColumns(movie)
    ensures var s := AddMovie(db, movie, userId);
      && s.outcome.Ok? && s.outcome.value.Some?
      && var id := s.outcome.value.value;
      && id !in db.movies
      && (forall k :: k in db.movies ==> k < id)
      && s.db.movies.Keys == db.movies.Keys + {id}
      && s.db.movies[id] == Movie(id, movie.name.value, movie.director.value,
                                  movie.year.value, movie.rating.value, userId)
      && (forall k :: k in db.movies ==> s.db.movies[k] == db.movies[k])
      && s.db.users == db.users
      && MoviesOf(s.db, userId) == MoviesOf(db, userId) + {s.db.movies[id]}
      && Consistent(s.db)
  {
    var s := AddMovie(db, movie, userId);
    var id := s.outcome.value.value;
    forall m | m in MoviesOf(s.db, userId)
      ensures m in MoviesOf(db, userId) + {s.db.movies[id]}
    {
      var k :| k in s.db.movies && s.db.movies[k].userId == userId && s.db.movies[k] == m;
      if k != id {
        assert k in db.movies && db.movies[k] == m;
      }
    }
    forall m | m in MoviesOf(db, userId)
      ensures m in MoviesOf(s.db, userId)
    {
      var k :| k in db.movies && db.movies[k].userId == userId && db.movies[k] == m;
      assert k in s.db.movies && s.db.movies[k] == m;
    }
  }

  /** `add_movie` for an existing user with a NULL column raises and writes nothing. */
  lemma AddMovieMissingColumn<R>(db: Db<R>, movie: MovieInput<R>, userId: int)
    requires userId in db.users && !HasAllColumns(movie)
    ensures AddMovie(db, movie, userId) == Step(Raised(NotNullViolation), db)
  {
  }

  /** `update_movie` for an id with no row changes nothing and raises nothing. */
  lemma UpdateMovieMissing<R>(db: Db<R>, movie: MovieInput<R>)
    requires movie.id.None? || movie.id.value !in db.movies
    ensures UpdateMovie(db, movie) == Step(Ok(()), db)
  {
  }

  /**
   * `update_movie` for a stored id, with every column given, overwrites that
   * row's four data columns, keeps its id and `user_id` (whatever the caller
   * object holds there), and leaves every other movie and every user alone.
   */
  lemma UpdateMovieOverwrites<R>(db: Db<R>, movie: MovieInput<R>)
    requires Consistent(db) && movie.id.Some? && movie.id.value in db.movies && HasAllColumns(movie)
    ensures var s := UpdateMovie(db, movie); var id := movie.id.value;
      && s.outcome == Ok(())
      && s.db.movies.Keys == db.movies.Keys
      && s.db.movies[id] == Movie(id, movie.name.value, movie.director.value,
                                  movie.year.value, movie.rating.value, db.movies[id].userId)
      && (forall k :: k in db.movies && k != id ==> s.db.movies[k] == db.movies[k])
      && s.db.users == db.users
      && s.db.nextUserId == db.nextUserId && s.db.nextMovieId == db.nextMovieId
      && Consistent(s.db)
  {
  }

  /** `update_movie` for a stored id with a NULL column raises; the commit is refused and nothing changes. */
  lemma UpdateMovieMissingColumn<R>(db: Db<R>, movie: MovieInput<R>)
    requires movie.id.Some? && movie.id.value in db.movies && !HasAllColumns(movie)
    ensures UpdateMovie(db, movie) == Step(Raised(NotNullViolation), db)
  {
  }

  /**
   * `delete_movie` removes exactly the row with that id, if any, and leaves
   * the users and every other movie as they were.
   */
  lemma DeleteMovieRemoves<R>(db: Db<R>, movieId: int)
    requires Consistent(db)
    ensures var r := DeleteMovie(db, movieId);
      && r.movies.Keys == db.movies.Keys - {movieId}
      && (forall k :: k in r.movies ==> r.movies[k] == db.movies[k])
      && r.users == db.users
      && (movieId !in db.movies ==> r == db)
      && Consistent(r)
  {
  }

  /** Seen from a user's `movies` collection, `update_movie` replaces the row in place. */
  lemma {:induction false} UpdateMovieInCollection<R>(db: Db<R>, movie: MovieInput<R>, userId: int)
    requires Consistent(db) && movie.id.Some? && movie.id.value in db.movies && HasAllColumns(movie)
    ensures var s := UpdateMovie(db, movie); var id := movie.id.value;
      MoviesOf(s.db, userId) ==
        if db.movies[id].userId == userId then MoviesOf(db, userId) - {db.movies[id]} + {s.db.movies[id]}
        else MoviesOf(db, userId)
  {
    var s := UpdateMovie(db, movie);
    var id := movie.id.value;
    var expected := if db.movies[id].userId == userId then MoviesOf(db, userId) - {db.movies[id]} + {s.db.movies[id]}
                    else MoviesOf(db, userId);
    forall m | m in MoviesOf(s.db, userId) ensures m in expected {
      MoviesOfStored(s.db, userId, m);
      if m.id != id {
        MoviesOfStored(db, userId, m);
      }
    }
    forall m | m in expected ensures m in MoviesOf(s.db, userId) {
      if m != s.db.movies[id] {
        MoviesOfStored(db, userId, m);
        assert m.id != id;
        MoviesOfStored(s.db, userId, m);
      } else {
        MoviesOfStored(s.db, userId, m);
      }
    }
  }

  /** Seen from a user's `movies` collection, `delete_movie` takes out exactly that row. */
  lemma {:induction false} DeleteMovieFromCollection<R>(db: Db<R>, movieId: int, userId: int)
    requires Consistent(db)
    ensures MoviesOf(DeleteMovie(db, movieId), userId) ==
      if movieId in db.movies then MoviesOf(db, userId) - {db.movies[movieId]} else MoviesOf(db, userId)
  {
    var r := DeleteMovie(db, movieId);
    var expected := if movieId in db.movies then MoviesOf(db, userId) - {db.movies[movieId]} else MoviesOf(db, userId);
    forall m | m in MoviesOf(r, userId) ensures m in expected {
      MoviesOfStored(r, userId, m);
      MoviesOfStored(db, userId, m);
    }
    forall m | m in expected ensures m in MoviesOf(r, userId) {
      MoviesOfStored(db, userId, m);
      MoviesOfStored(r, userId, m);
    }
  }

  /** Every operation keeps every schema constraint. */
  lemma OperationsKeepConsistent<R>(db: Db<R>, user: UserInput, movie: MovieInput<R>, id: int)
    requires Consistent(db)
    ensures Consistent(AddUser(db, user).db)
    ensures Consistent(AddMovie(db, movie, id).db)
    ensures Consistent(UpdateMovie(db, movie).db)
    ensures Consistent(DeleteMovie(db, id))
  {
  }
}
