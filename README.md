# Owner-scoped post table of md-editor-backend

This project models the `/posts` endpoints of the md-editor-backend service
and the `Post` record they store. Every user can create posts and list, read,
update and delete their own posts. Each lookup is by post id AND caller
together, so another user's post looks exactly like a missing one.

- `PostModel` (`post_model.dfy`) is the `posts` table row from
  `app/models/post.py`. It holds the `Post` datatype, the six column names,
  the declared title length (100) and `Revised`, the row after an update.
- `PostRoutes` (`post_routes.dfy`) is the handlers of `app/routes/posts.py`
  over an abstract table `map<int, Post>` keyed by primary key.
  - `Get` and `List` are pure functions of the map. `Get` is the shared
    `id AND owner` lookup. `List` filters by owner and an optional search
    term, then sorts descending by the `order_by` column.
  - `PostTable` is a class holding the map, the primary-key counter
    `nextId` and the set of registered user ids. Its methods `Create`,
    `Update` and `Delete` change the map in place.
  - Lemmas state the authorisation rule: other users' rows never show up
    in a caller's `Get` or `List`, and one user's writes never change what
    another user sees.
- `KeySets` (`key_sets.dfy`) gives the least key of a key set. `List` uses it
  to walk the table in ascending id order before sorting.

The caller's identity (`owner`) is an integer that has already been taken
from the bearer token. The current time (`now`) is an integer clock parameter.

Two points of the code shape the model:

- `updated_at` is declared with an on-update default
  (`app/models/post.py:12-13`). SQLAlchemy issues no UPDATE when the
  supplied title and content equal the stored ones, so the default does not
  fire then. An update that changes nothing leaves `updated_at` alone.
- The handlers do not check the title's length. The model assumes a store
  that enforces the declared `String(100)` (`app/models/post.py:9`) and
  returns `Err(TitleTooLong)` with the table unchanged; see "## Left out".

## Model

| member | source | states |
|---|---|---|
| PostModel.Revised | app/routes/posts.py:162-166 | an update never changes the post's id, owner or creation time |
| PostModel.RevisedFields | app/routes/posts.py:164-165 | a supplied title or content replaces the stored one; an omitted one is kept |
| PostModel.RevisedTimestamp | app/models/post.py:12-13 | the row changes iff title or content changes, and then `updated_at` becomes `now`; otherwise the row is left exactly as it was |
| PostModel.RevisedAdvancesClock | app/models/post.py:11-13 | with a clock past the last update, `updated_at` strictly grows exactly when the row changes, and `created_at` stays put |
| PostModel.RevisedIdempotent | app/routes/posts.py:164-166 | repeating the same update, at any later time, changes nothing |
| PostModel.RevisedFits | app/models/post.py:9-10 | an update whose title fits 100 characters keeps the row within its column declarations |
| PostRoutes.PrimaryKeyUnique | app/models/post.py:8 | no two stored rows share an id |
| PostRoutes.Get | app/routes/posts.py:119-121 | a row is returned iff one with that id exists and belongs to the caller, and it is the stored row |
| PostRoutes.GetHidesForeignRow | app/routes/posts.py:120 | another user's row gives the same `None` as if the row were absent |
| PostRoutes.GetSeesOnlyOwnRows | app/routes/posts.py:120 | what a lookup shows the caller depends only on the caller's own rows |
| PostRoutes.Matches | app/routes/posts.py:83-86 | a title that passes a search term is at least as long as the term, so a term longer than the title never matches |
| PostRoutes.LiteralOccurrenceMatches | app/routes/posts.py:85-86 | a title containing the search term verbatim passes the filter |
| PostRoutes.MatchesIgnoresCase | app/routes/posts.py:86 | the filter ignores ASCII case in both the title and the term |
| PostRoutes.ColumnNamed | app/routes/posts.py:84-90 | an absent `order_by` selects `created_at`; each of the six column names selects that column; a name that is not a column of `Post` selects `created_at` |
| PostRoutes.SortDesc | app/routes/posts.py:91 | the result is sorted descending by the column and is a permutation of the input |
| PostRoutes.Selection | app/routes/posts.py:81-86 | exactly the caller's stored rows that pass the search filter, in ascending id order |
| PostRoutes.List | app/routes/posts.py:80-92 | only the caller's stored rows, each passing the filter; every matching row appears, each once; with no or an empty term every row of the caller appears; sorted descending by the named column, `created_at` by default |
| PostRoutes.ListSeesOnlyOwnRows | app/routes/posts.py:81 | the listing shown to the caller, including the model's tie order, depends only on the caller's own rows |
| PostRoutes.StoreKeepsOthersRows | app/routes/posts.py:162-165 | storing a row of one user leaves every other user's rows identical |
| PostRoutes.RemoveKeepsOthersRows | app/routes/posts.py:198-199 | removing a row of one user leaves every other user's rows identical |
| PostRoutes.StoreInvisibleToOthers | app/routes/posts.py:43-48 | creating or updating a row of one user changes no other user's listing or lookups |
| PostRoutes.RemoveInvisibleToOthers | app/routes/posts.py:198-200 | deleting a row of one user changes no other user's listing or lookups |
| PostRoutes.PostTable.Valid | app/models/post.py:8-15 | the table's invariant: every row sits under its own primary key, its title fits `String(100)`, its `user_id` refers to a registered user; the id counter is past every stored id, so the next id is free |
| PostRoutes.PostTable.Create | app/routes/posts.py:41-49 | a new row with a fresh id, the caller as owner, the submitted title and content and both timestamps `now` is added and nothing else changes; an over-long title is refused with the table unchanged |
| PostRoutes.PostTable.Update | app/routes/posts.py:161-167 | an absent or foreign id gives `NotFound` with the table unchanged; otherwise only that row becomes its revision; an over-long title is refused with the table unchanged |
| PostRoutes.PostTable.Delete | app/routes/posts.py:197-201 | an absent or foreign id gives `NotFound` with the table unchanged; otherwise exactly that row is removed and the confirmation returned |
| PostRoutes.CreateThenRead | app/routes/posts.py:43-50 | a created post belongs to the caller, appears in the caller's unfiltered listing and reads back unchanged |
| PostRoutes.UpdateTitleThenGet | app/routes/posts.py:162-167 | after a title-only update the post reads back with the new title and old content, and `updated_at` grows iff the title changed |
| PostRoutes.DeleteThenGet | app/routes/posts.py:198-201 | after a delete the post is gone from the owner's lookups and from every listing, whatever its search term and order |

## Left out

- Authentication: the bearer token, its signing and expiry, and password
  checks are library calls. The caller's identity is a parameter.
  `PostTable.Create` requires it to be a registered user, because the
  `user_id` foreign key demands it and users are never deleted.
- Registration: it adds users, but the users table is not part of this
  model. The set of user ids is fixed when the table is constructed.
- HTTP and JSON: status codes, request parsing and serialisation are not
  modelled. The required `title` and `content` of a create are plain
  parameters. An explicit JSON `null` for an update field is not modelled;
  a field is either supplied or omitted.
- Search wildcards: the SQL `ILIKE` pattern treats `%` and `_` in the term as
  wildcards. The model treats the term as a literal substring and folds
  ASCII letters only, with no Unicode case folding.
- PostTable.Create and PostTable.Update: both assume a store that refuses
  a title over 100 characters. The engine comes from the `DATABASE_URL`
  setting (`app/config.py:11`), so this is not known from the code.
  PostgreSQL and MySQL in strict mode refuse such a title; SQLite stores
  it. In the source that refusal is an uncaught database error at
  `db.session.commit()` (`app/routes/posts.py:49`, `166`), not a result
  the handler returns; the model reports it as `Err(TitleTooLong)`.
- List: breaks ties in the sort column by ascending id. The source's
  `order_by(column.desc())` (`app/routes/posts.py:91`) leaves the order of
  equal keys to the database, which promises none. What
  `ListSeesOnlyOwnRows` says about order holds for this choice.
- Sort order of text: the model orders `title` and `content` by code point.
  The database orders them by its collation.
- `order_by` names: the source accepts any attribute of the `Post` class,
  including non-columns such as `author` or `query`, which would fail when
  sorted. The model accepts the six column names and falls back to
  `created_at` for every other name.
- Ids: the database sequence is modelled as a counter `nextId`. Whether a
  refused insert still uses up a sequence value is not modelled; the
  counter is left unchanged.
- Clock: wall-clock UTC datetimes are integers. Nothing forces the clock to
  be monotonic, so the lemmas about growing timestamps assume `now` is past
  the row's last update.
- Concurrency and transactions: each handler is one atomic step.
  Last-writer-wins races are not modelled.
- Configuration, CORS, API documentation, connection pooling and the
  migration script have no runtime logic of their own here.
