/**
 * The end-to-end script of `test.py`, as a client of `SQLiteDataManager`
 * that relies only on the methods' contracts.
 */
module Scenario {
  import opened Wrappers
  import opened Models
  import opened Tables
  import opened DataManager

  /** A listing with distinct ids whose members are exactly `x` is `[x]`. */
  lemma {:induction false} SingleListing<R>(s: seq<Movie<R>>, x: Movie<R>)
    requires forall m :: m in s <==> m == x
    requires forall i, j :: 0 <= i < j < |s| ==> s[i].id != s[j].id
    ensures s == [x]
  {
    assert x in s;
    forall i | 0 <= i < |s| ensures s[i] == x {
      assert s[i] in s;
    }
    assert |s| > 1 ==> s[0].id == s[1].id;
  }

  /** A non-empty listing has its first entry among its members. */
  lemma HeadIsMember<T>(s: seq<T>)
    ensures |s| > 0 ==> s[0] in s
  {
  }

  /**
   * Open a database holding anything consistent; add the user "Alice"; add
   * "Inception" (Christopher Nolan, 2010) for her; list all users and her
   * movies; update the movie's rating; delete the movie; list her movies
   * again. The first listing holds just the new movie, the last is empty.
   */
  method RunScenario<R>(existing: Db<R>, firstRating: R, secondRating: R)
    returns (userId: int, movieId: int, users: seq<User>, listed: seq<Movie<R>>, emptied: seq<Movie<R>>)
    requires Consistent(existing)
    ensures userId !in existing.users && movieId !in existing.movies
    ensures User(userId, "Alice") in users
    ensures listed == [Movie(movieId, "Inception", "Christopher Nolan", 2010, firstRating, userId)]
    ensures emptied == []
  {
    var dm := new SQLiteDataManager(existing);

    var alice := UserInput(None, Some("Alice"));
    var addedUser := dm.AddUser(alice);
    ghost var db1 := dm.State();
    AddUserInserts(existing, alice);
    userId := addedUser.value;
    NoMoviesOfMissingUser(existing, userId);

    var added := MovieInput(None, Some("Inception"), Some("Christopher Nolan"), Some(2010), Some(firstRating), None);
    var addedMovie := dm.AddMovie(added, userId);
    ghost var db2 := dm.State();
    AddMovieInserts(db1, added, userId);
    movieId := addedMovie.value.value;
    ghost var inception := Movie(movieId, "Inception", "Christopher Nolan", 2010, firstRating, userId);
    assert MoviesOf(db2, userId) == {inception};

    users := dm.GetAllUsers();
    listed := dm.GetUserMovies(userId);
    SingleListing(listed, inception);

    var updated := MovieInput(Some(movieId), Some("Inception"), Some("Christopher Nolan"), Some(2010), Some(secondRating), None);
    var _ := dm.UpdateMovie(updated);
    ghost var db3 := dm.State();
    UpdateMovieInCollection(db2, updated, userId);
    assert MoviesOf(db3, userId) == {db3.movies[movieId]};

    dm.DeleteMovie(movieId);
    DeleteMovieFromCollection(db3, movieId, userId);
    assert MoviesOf(dm.State(), userId) == {};

    emptied := dm.GetUserMovies(userId);
    HeadIsMember(emptied);
  }
}
