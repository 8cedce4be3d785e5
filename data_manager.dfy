/**
 * `SQLiteDataManager`: the data-access class. Its two tables and their id
 * counters are fields; each method is one session's unit of work on them.
 */
module DataManager {
  import opened Wrappers
  import opened Models
  import opened Tables

  class SQLiteDataManager<R> {
    var users: map<int, User>
    var movies: map<int, Movie<R>>
    var nextUserId: int
    var nextMovieId: int

    /** The database the fields hold. */
    function State(): Db<R>
      reads this
    {
      Db(users, movies, nextUserId, nextMovieId)
    }

    /** The schema's constraints hold of the stored tables. */
    ghost predicate Valid()
      reads this
    {
      Consistent(State())
    }

    /**
     * Open a database file. `create_all` only adds tables that are missing,
     * so the rows already in the file are what the manager starts with.
     */
    constructor (existing: Db<R>)
      requires Consistent(existing)
      ensures Valid() && State() == existing
    {
      users := existing.users;
      movies := existing.movies;
      nextUserId := existing.nextUserId;
      nextMovieId := existing.nextMovieId;
    }

    /** `get_all_users`: every stored user, once each, in no promised order. */
    method GetAllUsers() returns (result: seq<User>)
      requires Valid()
      ensures forall u :: u in result <==> u.id in users && users[u.id] == u
      ensures forall i, j :: 0 <= i < j < |result| ==> result[i].id != result[j].id
      ensures |result| == |users|
    {
      result := [];
      var pending := users.Keys;
      while pending != {}
        invariant pending <= users.Keys
        invariant forall u :: u in result <==> u.id in users && users[u.id] == u && u.id !in pending
        invariant forall i :: 0 <= i < |result| ==> result[i].id !in pending
        invariant forall i, j :: 0 <= i < j < |result| ==> result[i].id != result[j].id
        invariant |result| + |pending| == |users|
        decreases pending
      {
        if forall j :: j !in pending { assert false; }  // a non-empty set has an element
        var k :| k in pending;
        result := result + [users[k]];
        pending := pending - {k};
      }
    }

    /**
     * `get_user_movies`: the empty list when no user has `userId`, otherwise
     * the user's `movies` collection: each movie whose `user_id` is `userId`,
     * once each, in no promised order.
     */
    method GetUserMovies(userId: int) returns (result: seq<Movie<R>>)
      requires Valid()
      ensures userId !in users ==> result == []
      ensures forall m :: m in result <==> m in MoviesOf(State(), userId)
      ensures forall i, j :: 0 <= i < j < |result| ==> result[i].id != result[j].id
    {
      if userId !in users {
        NoMoviesOfMissingUser(State(), userId);
        return [];
      }
      result := [];
      var pending := movies.Keys;
      while pending != {}
        invariant pending <= movies.Keys
        invariant forall m :: m in result <==> m in MoviesOf(State(), userId) && m.id !in pending
        invariant forall i :: 0 <= i < |result| ==> result[i].id !in pending
        invariant forall i, j :: 0 <= i < j < |result| ==> result[i].id != result[j].id
        decreases pending
      {
        if forall j :: j !in pending { assert false; }  // a non-empty set has an element
        var k :| k in pending;
        var movie := movies[k];
        MoviesOfStored(State(), userId, movie);
        if movie.userId == userId {
          result := result + [movie];
        }
        pending := pending - {k};
      }
    }

    /** `add_user`: insert a row holding the caller's name; return its id. */
    method AddUser(user: UserInput) returns (outcome: Outcome<int>)
      requires Valid()
      modifies this
      ensures Valid()
      ensures Step(outcome, State()) == Tables.AddUser(old(State()), user)
    {
      if user.name.None? {
        // the INSERT fails its NOT NULL check at commit; nothing is written
        return Raised(NotNullViolation);
      }
      var id := nextUserId;
      users := users[id := User(id, user.name.value)];
      nextUserId := id + 1;
      outcome := Ok(id);
    }

    /**
     * `add_movie`: `None` when no user has `userId`; otherwise insert a row
     * with the caller's columns, owned by `userId`, and return its id.
     */
    method AddMovie(movie: MovieInput<R>, userId: int) returns (outcome: Outcome<Option<int>>)
      requires Valid()
      modifies this
      ensures Valid()
      ensures Step(outcome, State()) == Tables.AddMovie(old(State()), movie, userId)
    {
      if userId !in users {
        return Ok(None);
      }
      if !HasAllColumns(movie) {
        return Raised(NotNullViolation);
      }
      var id := nextMovieId;
      movies := movies[id := Movie(id, movie.name.value, movie.director.value,
                                   movie.year.value, movie.rating.value, userId)];
      nextMovieId := id + 1;
      outcome := Ok(Some(id));
    }

    /**
     * `update_movie`: overwrite name, director, year and rating of the row
     * the caller's id names; a silent no-op when there is none.
     */
    method UpdateMovie(movie: MovieInput<R>) returns (outcome: Outcome<()>)
      requires Valid()
      modifies this
      ensures Valid()
      ensures Step(outcome, State()) == Tables.UpdateMovie(old(State()), movie)
    {
      if movie.id.None? || movie.id.value !in movies {
        return Ok(());
      }
      if !HasAllColumns(movie) {
        // the assignments are flushed at commit and fail there; the row keeps its old values
        return Raised(NotNullViolation);
      }
      var id := movie.id.value;
      var existing := movies[id];
      existing := existing.(name := movie.name.value);
      existing := existing.(director := movie.director.value);
      existing := existing.(year := movie.year.value);
      existing := existing.(rating := movie.rating.value);
      movies := movies[id := existing];
      outcome := Ok(());
    }

    /** `delete_movie`: remove the row with that id; a silent no-op when there is none. */
    method DeleteMovie(movieId: int)
      requires Valid()
      modifies this
      ensures Valid()
      ensures State() == Tables.DeleteMovie(old(State()), movieId)
    {
      if movieId in movies {
        movies := movies - {movieId};
      }
    }
  }
}
