/** A row of the `posts` table: the columns of app/models/post.py, their
    declared constraints, and how an update of title or content changes a row.
    Timestamps are ticks of an abstract integer clock. */
module PostModel {

  datatype Option<T> = None | Some(value: T)

  /** Declared length of the `title` column (a String(100) column). */
  const TitleMaxLength: nat := 100

  /** One stored post. Every field is non-null by construction; `userId` is
      the owner, a foreign key into the users table. */
  datatype Post = Post(
    id: int,
    title: string,
    content: string,
    createdAt: int,
    updatedAt: int,
    userId: int)

  /** The columns of a post, in declaration order. */
  datatype Column = Id | Title | Content | CreatedAt | UpdatedAt | UserId

  /** The attribute name under which each column is declared. */
  function ColumnName(c: Column): string
  {
    match c
    case Id => "id"
    case Title => "title"
    case Content => "content"
    case CreatedAt => "created_at"
    case UpdatedAt => "updated_at"
    case UserId => "user_id"
  }

  /** A row the column declarations accept: the title fits its declared
      length (the text `content` column has no bound). */
  predicate FitsColumns(p: Post)
  {
    |p.title| <= TitleMaxLength
  }

  /** The row after an update that supplies an optional new title and an
      optional new content. An omitted field keeps its value. `updated_at`
      is an on-update default: it is refreshed only when the row really
      changes, since no UPDATE is issued for a row whose values are equal to
      the stored ones. */
  function Revised(p: Post, title: Option<string>, content: Option<string>, now: int): (q: Post)
    ensures q.id == p.id && q.userId == p.userId && q.createdAt == p.createdAt
  {
    var t := if title.Some? then title.value else p.title;
    var c := if content.Some? then content.value else p.content;
    if t == p.title && c == p.content then p
    else p.(title := t, content := c, updatedAt := now)
  }

  /** Supplied fields take the supplied values, omitted ones keep theirs. */
  lemma RevisedFields(p: Post, title: Option<string>, content: Option<string>, now: int)
    ensures title.Some? ==> Revised(p, title, content, now).title == title.value
    ensures title.None? ==> Revised(p, title, content, now).title == p.title
    ensures content.Some? ==> Revised(p, title, content, now).content == content.value
    ensures content.None? ==> Revised(p, title, content, now).content == p.content
  {
  }

  /** `updated_at` moves to `now` exactly when title or content changes;
      otherwise the row is left exactly as it was. */
  lemma RevisedTimestamp(p: Post, title: Option<string>, content: Option<string>, now: int)
    ensures var q := Revised(p, title, content, now);
      (q.title != p.title || q.content != p.content) <==> q != p
    ensures var q := Revised(p, title, content, now);
      q != p ==> q.updatedAt == now
  {
  }

  /** With a clock that has moved past the row's last update, a change to
      title or content strictly increases `updated_at`, and `created_at`
      never moves. */
  lemma RevisedAdvancesClock(p: Post, title: Option<string>, content: Option<string>, now: int)
    requires now > p.updatedAt
    ensures var q := Revised(p, title, content, now);
      q.updatedAt >= p.updatedAt && (q != p <==> q.updatedAt > p.updatedAt)
    ensures Revised(p, title, content, now).createdAt == p.createdAt
  {
  }

  /** Repeating the same update is a no-op, even at a later time. */
  lemma RevisedIdempotent(p: Post, title: Option<string>, content: Option<string>, now: int, later: int)
    ensures var q := Revised(p, title, content, now);
      Revised(q, title, content, later) == q
  {
  }

  /** An update whose supplied title fits keeps the row within its column
      constraints. */
  lemma RevisedFits(p: Post, title: Option<string>, content: Option<string>, now: int)
    requires FitsColumns(p)
    requires title.Some? ==> |title.value| <= TitleMaxLength
    ensures FitsColumns(Revised(p, title, content, now))
  {
  }
}
