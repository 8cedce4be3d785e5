# moviweb data manager, modelled in Dafny

This project models the data-access layer of the moviweb Flask application:
the `SQLiteDataManager` class and the two SQLAlchemy mapped classes it works
on, `User` (table `users`) and `Movie` (table `movies`).

- `models.dfy` (module `Models`) holds the stored rows as datatypes, the
  transient `User(...)` / `Movie(...)` objects callers pass in (every
  attribute may still be `None`), the database as a value `Db` (both tables
  keyed by primary key plus each table's next autoincrement id), and the
  schema's constraints as the predicate `Consistent`: primary keys unique and
  below the counter, `movies.user_id` a foreign key to `users.id`. NOT NULL
  columns are plain (non-optional) fields of the stored rows. The
  `User.movies` relationship is `MoviesOf`; its `all, delete-orphan` cascade
  is `DeleteUserCascade` and `DetachMovie`.
- `tables.dfy` (module `Tables`) gives each data-manager operation as a
  function from the database before the call to the call's outcome and the
  database after it, and proves each operation's contract about those
  functions: fresh ids, exact contents of the new row, the `None` and no-op
  paths, the NOT NULL failure at commit, "nothing else changes", and that
  every operation keeps `Consistent`.
- `data_manager.dfy` (module `DataManager`) is the class
  `SQLiteDataManager` itself. Its fields are the two tables and the two id
  counters; each method is one session's unit of work and changes the fields
  step by step. Every mutating method keeps `Valid()` and ends in exactly
  the state the matching `Tables` function gives. The two read methods walk
  the table with a loop and are proved against `Models` directly.
- `scenario.dfy` (module `Scenario`) is the script of `test.py` written as a
  client of the class that uses only the methods' contracts.
- `wrappers.dfy` holds `Option`, for Python's `None`.

Failures are modelled as values: `Outcome` is either `Ok(value)` or
`Raised(NotNullViolation)`, the IntegrityError that `session.commit()`
raises when a NOT NULL column would receive `None`. The database after a
raised error is the database before the call.

`blueprints/users.py` and `blueprints/reviews.py` use `Director`, `Review`,
a `lastname` and data-manager methods that `models.py` and
`datamanager/sqlite_data_manager.py` do not define; in these two files
`director` is a plain string column, and `update_movie` and `delete_movie`
are silent no-ops on a missing id (`datamanager/sqlite_data_manager.py:100`,
`:116`). The model follows these two files.

## Model

| member | source | states |
|---|---|---|
| `Models.EmptyDb` | datamanager/sqlite_data_manager.py:20-21 | a freshly created database file has empty tables, counters at 1, and meets every schema constraint |
| `Models.IdsUnique` | models.py:18 | two different rows of `users` (and of `movies`, primary key at models.py:41) never carry the same id |
| `Models.MoviesOfStored` | models.py:20-21 | a movie is in `user.movies` exactly when it is the row stored under its id and its `user_id` is that user |
| `Models.NoMoviesOfMissingUser` | models.py:46 | because `user_id` is a foreign key, an id no user has owns no movie |
| `Models.DeleteUserCascadeCorrect` | models.py:20-21 | deleting a user with the cascade removes exactly that user's movies, keeps every other row, and keeps every constraint |
| `Models.DeleteUserAloneOrphans` | models.py:46 | deleting a user who owns a movie without the cascade breaks the foreign key |
| `Models.DetachMovieCorrect` | models.py:20-21 | removing a movie from its user's collection deletes that movie (delete-orphan), shrinks the collection by exactly it, and keeps every constraint |
| `Tables.AddUserInserts` | datamanager/sqlite_data_manager.py:58-64 | `add_user` returns an id no user had and above all earlier ids; `users` gains exactly that row, with the given name; `movies` is unchanged; constraints hold |
| `Tables.AddUserWithoutName` | models.py:19 | a user without a name is refused at commit and nothing is written |
| `Tables.AddUserCopiesOnlyName` | datamanager/sqlite_data_manager.py:59 | only the caller object's `name` is used: two objects with the same name give the same result |
| `Tables.AddMovieWithoutUser` | datamanager/sqlite_data_manager.py:75-88 | `add_movie` for an id no user has returns `None` and leaves both tables as they were |
| `Tables.AddMovieInserts` | datamanager/sqlite_data_manager.py:76-86 | `add_movie` for an existing user returns a fresh id; the new row has the given name, director, year, rating and `user_id` equal to the argument; the user's collection gains exactly that row; nothing else changes |
| `Tables.AddMovieMissingColumn` | models.py:42-45 | a movie with a `None` name, director, year or rating is refused at commit and nothing is written |
| `Tables.UpdateMovieMissing` | datamanager/sqlite_data_manager.py:99-106 | `update_movie` for an id with no row (or no id at all) changes nothing |
| `Tables.UpdateMovieOverwrites` | datamanager/sqlite_data_manager.py:100-105 | `update_movie` overwrites the four data columns, keeps the row's id and `user_id`, and leaves every other movie, every user and both counters unchanged |
| `Tables.UpdateMovieMissingColumn` | datamanager/sqlite_data_manager.py:101-105 | assigning `None` to a NOT NULL column fails at commit and the row keeps its values |
| `Tables.UpdateMovieInCollection` | datamanager/sqlite_data_manager.py:99-105 | in its owner's `movies` collection the updated row replaces the old one; every other user's collection is unchanged |
| `Tables.DeleteMovieRemoves` | datamanager/sqlite_data_manager.py:114-119 | `delete_movie` removes exactly the row with that id, is a no-op when there is none, and leaves users and every other movie unchanged |
| `Tables.DeleteMovieFromCollection` | datamanager/sqlite_data_manager.py:115-117 | after `delete_movie` a user's collection is the old one less exactly the deleted row |
| `Tables.OperationsKeepConsistent` | models.py:18-46 | every operation keeps unique keys, counters above all ids, and the foreign key |
| `DataManager.SQLiteDataManager.constructor` | datamanager/sqlite_data_manager.py:13-22 | opening a file keeps the rows already in it |
| `DataManager.SQLiteDataManager.GetAllUsers` | datamanager/sqlite_data_manager.py:24-33 | the result lists every stored user, nothing else, once each |
| `DataManager.SQLiteDataManager.GetUserMovies` | datamanager/sqlite_data_manager.py:42-49 | the empty list when no user has the id; otherwise exactly the user's movies, once each; the store is not changed |
| `DataManager.SQLiteDataManager.AddUser` | datamanager/sqlite_data_manager.py:58-64 | the new state and the returned id are those of `Tables.AddUser`, and the constraints still hold |
| `DataManager.SQLiteDataManager.AddMovie` | datamanager/sqlite_data_manager.py:74-90 | the new state and the result are those of `Tables.AddMovie`, and the constraints still hold |
| `DataManager.SQLiteDataManager.UpdateMovie` | datamanager/sqlite_data_manager.py:98-106 | the new state is that of `Tables.UpdateMovie`, field by field in place, and the constraints still hold |
| `DataManager.SQLiteDataManager.DeleteMovie` | datamanager/sqlite_data_manager.py:114-119 | the new state is that of `Tables.DeleteMovie`, and the constraints still hold |
| `Scenario.RunScenario` | test.py:7-35 | on any consistent database: Alice gets a fresh id and is listed; after adding Inception her list is exactly that movie; after update and delete her list is empty |

## Left out

- Engine and session plumbing (`create_engine`, `sessionmaker`, `close`), transactions and concurrent sessions: each method is one atomic step on the fields.
- The file on disk: the constructor takes the database contents the file already holds.
- Id assignment: SQLite gives a new row one more than the largest id in the table, so an id freed by deleting the newest row can be handed out again. The model uses a per-table counter that only moves up. Both give ids no stored row has, which is all the contracts promise beyond the counter's value.
- Foreign-key enforcement by SQLite (off by default there): the model does not rely on the engine; the foreign key is kept because `add_movie` checks the user and no operation changes `user_id`.
- `rating` is a Float column; it is the opaque type parameter `R`, and float parsing and comparison are not modelled.
- Errors other than the NOT NULL IntegrityError: disk errors, values of the wrong column type, and integers outside the 64-bit range of SQLite INTEGER columns (a Python `int` beyond it for `year` or an id makes sqlite3 raise OverflowError when the row is written, while the model's `int` is unbounded). The session left open when `commit()` raises is not modelled.
- Returned objects are values: detached instances, lazy loading and the `Movie.user` backref object are not modelled, and the order of `get_all_users` and of `user.movies` is not given because the source does not fix it.
- Deleting a user has no method in the data manager; the cascade is modelled as `Models.DeleteUserCascade` and `Models.DetachMovie`.
- `DataManagerInterface` has only abstract signatures and no behaviour; the class stands alone.
- `__repr__` formatting and the `print` calls of `test.py`.
- The Flask blueprints, the external movie lookup, and the data-manager methods and entities they use that these files do not define (directors, reviews, `get_user`, `get_movie`) are not part of this model.
