/** The owner-scoped post table behind the `/posts` endpoints of
    app/routes/posts.py. The table is a map from primary key to row; the
    caller's identity (`owner`) and the current time (`now`) are plain
    parameters. Reads (get, list) are functions of the map; writes (create,
    update, delete) are methods of `PostTable`, which holds the map. */
module PostRoutes {
  import opened PostModel
  import opened KeySets

  /** What a handler reports instead of a row. */
  datatype Error =
    | NotFound      // no row with this id, or a row owned by someone else
    | TitleTooLong  // the store refused a title longer than its column

  datatype Result<T> = Ok(value: T) | Err(error: Error)

  /** The confirmation a successful delete returns. */
  const DeletedMessage: string := "Post deleted"

  /** Every row is stored under its own primary key and fits its columns. */
  ghost predicate WellFormed(posts: map<int, Post>)
  {
    forall k :: k in posts ==> posts[k].id == k && FitsColumns(posts[k])
  }

  /** The part of the table that belongs to `owner`. */
  ghost function OwnRows(posts: map<int, Post>, owner: int): map<int, Post>
  {
    map k | k in posts && posts[k].userId == owner :: posts[k]
  }

  /** The id is the primary key: no two stored rows share one. */
  lemma PrimaryKeyUnique(posts: map<int, Post>, a: int, b: int)
    requires WellFormed(posts)
    requires a in posts && b in posts && posts[a].id == posts[b].id
    ensures a == b
  {
  }

  // ---------------------------------------------------------------------
  // Get: the lookup by id AND owner shared by get, update and delete

  /** The row with this id, provided it belongs to `owner`. An absent row
      and another user's row give the same `None`. */
  function Get(posts: map<int, Post>, id: int, owner: int): (r: Option<Post>)
    ensures r.Some? <==> id in posts && posts[id].userId == owner
    ensures r.Some? ==> r.value == posts[id] && r.value.userId == owner
  {
    if id in posts && posts[id].userId == owner then Some(posts[id]) else None
  }

  /** Another user's row is indistinguishable from no row at all. */
  lemma GetHidesForeignRow(posts: map<int, Post>, id: int, owner: int)
    requires id in posts && posts[id].userId != owner
    ensures Get(posts, id, owner) == Get(posts - {id}, id, owner) == None
  {
  }

  /** What `Get` reveals to `owner` depends on `owner`'s rows only. */
  lemma GetSeesOnlyOwnRows(posts: map<int, Post>, posts': map<int, Post>, id: int, owner: int)
    requires OwnRows(posts, owner) == OwnRows(posts', owner)
    ensures Get(posts, id, owner) == Get(posts', id, owner)
  {
    var own, own' := OwnRows(posts, owner), OwnRows(posts', owner);
    assert id in posts && posts[id].userId == owner ==> id in own && own[id] == posts[id];
    assert id in posts' && posts'[id].userId == owner ==> id in own' && own'[id] == posts'[id];
  }

  // ---------------------------------------------------------------------
  // List: filter by owner and search term, then sort descending

  /** ASCII lower-casing of one character. */
  function LowerChar(c: char): char
  {
    if 'A' <= c <= 'Z' then (c as int + 32) as char else c
  }

  /** ASCII lower-casing of a string: no upper-case ASCII letter is left,
      and every other character stays where it was. */
  function LowerAscii(s: string): (r: string)
    ensures |r| == |s|
    ensures forall i :: 0 <= i < |r| ==> !('A' <= r[i] <= 'Z')
    ensures forall i :: 0 <= i < |s| && !('A' <= s[i] <= 'Z') ==> r[i] == s[i]
  {
    seq(|s|, i requires 0 <= i < |s| => LowerChar(s[i]))
  }

  /** `needle` occurs in `hay` starting at position `i`. */
  predicate OccursAt(hay: string, needle: string, i: int)
  {
    0 <= i <= |hay| - |needle| && hay[i..i + |needle|] == needle
  }

  /** `needle` occurs in `hay` as a contiguous piece. */
  predicate Contains(hay: string, needle: string)
  {
    exists i | 0 <= i <= |hay| - |needle| :: OccursAt(hay, needle, i)
  }

  /** The `search` filter: an absent or empty term keeps every title;
      otherwise the title must contain the term, ignoring ASCII case. */
  predicate Matches(title: string, search: Option<string>)
    ensures Matches(title, search) && search.Some? ==> |search.value| <= |title|
  {
    search.None? || search.value == [] || Contains(LowerAscii(title), LowerAscii(search.value))
  }

  /** The rows a listing by `owner` with `search` keeps. */
  predicate Selected(p: Post, owner: int, search: Option<string>)
  {
    p.userId == owner && Matches(p.title, search)
  }

  /** A title that contains the term verbatim matches it. */
  lemma LiteralOccurrenceMatches(title: string, term: string)
    requires Contains(title, term)
    ensures Matches(title, Some(term))
  {
    var i :| 0 <= i <= |title| - |term| && OccursAt(title, term, i);
    var lt, lterm := LowerAscii(title), LowerAscii(term);
    assert lt[i..i + |term|] == lterm;
    assert OccursAt(lt, lterm, i);
  }

  /** Lower-casing twice is lower-casing once. */
  lemma LowerAsciiIdempotent(s: string)
    ensures LowerAscii(LowerAscii(s)) == LowerAscii(s)
  {
  }

  /** The filter ignores ASCII case on both sides: matching a title against
      a term is the same as matching their lower-cased forms. */
  lemma MatchesIgnoresCase(title: string, term: string)
    ensures Matches(title, Some(term)) == Matches(LowerAscii(title), Some(LowerAscii(term)))
  {
    LowerAsciiIdempotent(title);
    LowerAsciiIdempotent(term);
  }

  /** The `order_by` parameter: an absent name means `created_at`, a column
      name selects that column, and any other name falls back to
      `created_at`. */
  function ColumnNamed(name: Option<string>): (r: Column)
    ensures name.None? ==> r == CreatedAt
    ensures forall c :: name == Some(ColumnName(c)) ==> r == c
    ensures name.Some? && (forall c :: ColumnName(c) != name.value) ==> r == CreatedAt
  {
    if name.None? then CreatedAt
    else if name.value == ColumnName(Id) then Id
    else if name.value == ColumnName(Title) then Title
    else if name.value == ColumnName(Content) then Content
    else if name.value == ColumnName(CreatedAt) then CreatedAt
    else if name.value == ColumnName(UpdatedAt) then UpdatedAt
    else if name.value == ColumnName(UserId) then UserId
    else CreatedAt
  }

  /** `a` sorts at or after `b` in code-point lexicographic order. */
  predicate LexAtLeast(a: string, b: string)
  {
    if b == [] then true
    else if a == [] then false
    else if a[0] != b[0] then a[0] > b[0]
    else LexAtLeast(a[1..], b[1..])
  }

  lemma {:induction false} LexTotal(a: string, b: string)
    ensures LexAtLeast(a, b) || LexAtLeast(b, a)
  {
    if a != [] && b != [] && a[0] == b[0] {
      LexTotal(a[1..], b[1..]);
    }
  }

  lemma {:induction false} LexTransitive(a: string, b: string, c: string)
    requires LexAtLeast(a, b) && LexAtLeast(b, c)
    ensures LexAtLeast(a, c)
  {
    if a != [] && b != [] && c != [] && a[0] == b[0] && b[0] == c[0] {
      LexTransitive(a[1..], b[1..], c[1..]);
    }
  }

  /** In a descending listing by `col`, `a` may come before `b`. */
  predicate KeyAtLeast(col: Column, a: Post, b: Post)
  {
    match col
    case Id => a.id >= b.id
    case Title => LexAtLeast(a.title, b.title)
    case Content => LexAtLeast(a.content, b.content)
    case CreatedAt => a.createdAt >= b.createdAt
    case UpdatedAt => a.updatedAt >= b.updatedAt
    case UserId => a.userId >= b.userId
  }

  lemma KeyTotal(col: Column, a: Post, b: Post)
    ensures KeyAtLeast(col, a, b) || KeyAtLeast(col, b, a)
  {
    match col
    case Title => LexTotal(a.title, b.title);
    case Content => LexTotal(a.content, b.content);
    case _ =>
  }

  lemma KeyTransitive(col: Column, a: Post, b: Post, c: Post)
    requires KeyAtLeast(col, a, b) && KeyAtLeast(col, b, c)
    ensures KeyAtLeast(col, a, c)
  {
    match col
    case Title => LexTransitive(a.title, b.title, c.title);
    case Content => LexTransitive(a.content, b.content, c.content);
    case _ =>
  }

  ghost predicate SortedDesc(col: Column, s: seq<Post>)
  {
    forall i, j :: 0 <= i < j < |s| ==> KeyAtLeast(col, s[i], s[j])
  }

  /** A row that is at least the head of a sorted run is at least all of it. */
  lemma HeadDominates(col: Column, p: Post, s: seq<Post>)
    requires SortedDesc(col, s) && s != [] && KeyAtLeast(col, p, s[0])
    ensures forall q :: q in s ==> KeyAtLeast(col, p, q)
  {
    forall q | q in s
      ensures KeyAtLeast(col, p, q)
    {
      var k :| 0 <= k < |s| && s[k] == q;
      if k > 0 {
        KeyTransitive(col, p, s[0], q);
      }
    }
  }

  /** Putting in front of a sorted run a row that is at least all of it
      keeps the run sorted. */
  lemma PrependSorted(col: Column, p: Post, s: seq<Post>)
    requires SortedDesc(col, s)
    requires forall q :: q in s ==> KeyAtLeast(col, p, q)
    ensures SortedDesc(col, [p] + s)
  {
  }

  /** Inserts `p` into a run sorted descending by `col`. */
  function Insert(col: Column, p: Post, s: seq<Post>): (r: seq<Post>)
    requires SortedDesc(col, s)
    ensures SortedDesc(col, r)
    ensures multiset(r) == multiset(s) + multiset{p}
  {
    if s == [] then [p]
    else if KeyAtLeast(col, p, s[0]) then
      HeadDominates(col, p, s);
      PrependSorted(col, p, s);
      [p] + s
    else
      assert s == [s[0]] + s[1..];
      var rest := Insert(col, p, s[1..]);
      KeyTotal(col, p, s[0]);
      assert forall q :: q in rest ==> q in multiset(s[1..]) + multiset{p};
      PrependSorted(col, s[0], rest);
      [s[0]] + rest
  }

  /** Sorts descending by `col`: a sorted permutation of the input. */
  function SortDesc(col: Column, s: seq<Post>): (r: seq<Post>)
    ensures SortedDesc(col, r)
    ensures multiset(r) == multiset(s)
  {
    if s == [] then []
    else
      assert s == [s[0]] + s[1..];
      Insert(col, s[0], SortDesc(col, s[1..]))
  }

  /** Strictly ascending ids: the order in which rows are visited. */
  ghost predicate IdsAscending(s: seq<Post>)
  {
    forall i, j :: 0 <= i < j < |s| ==> s[i].id < s[j].id
  }

  /** The rows of `owner` that pass the `search` filter, by ascending id. */
  function Selection(posts: map<int, Post>, owner: int, search: Option<string>): (r: seq<Post>)
    requires WellFormed(posts)
    ensures forall p :: p in r ==> p.id in posts && posts[p.id] == p && Selected(p, owner, search)
    ensures forall k :: k in posts && Selected(posts[k], owner, search) ==> posts[k] in r
    ensures IdsAscending(r)
    decreases posts.Keys
  {
    if !exists k | k in posts :: true then []
    else
      var k := MinKey(posts.Keys);
      var rest := Selection(posts - {k}, owner, search);
      if Selected(posts[k], owner, search) then
        assert forall p :: p in rest ==> k < p.id;
        assert forall j :: j in posts && j != k ==> j in posts - {k} && (posts - {k})[j] == posts[j];
        [posts[k]] + rest
      else
        assert forall j :: j in posts && j != k ==> j in posts - {k} && (posts - {k})[j] == posts[j];
        rest
  }

  /** A run with strictly ascending ids holds each row at most once. */
  lemma {:induction false} AscendingHasNoDuplicates(s: seq<Post>)
    requires IdsAscending(s)
    ensures forall p :: multiset(s)[p] <= 1
  {
    if s != [] {
      AscendingHasNoDuplicates(s[1..]);
      assert s == [s[0]] + s[1..];
      assert s[0] !in s[1..];
    }
  }

  lemma HeadIsMember(s: seq<Post>)
    ensures s != [] ==> s[0] in s
  {
  }

  /** Two runs with strictly ascending ids and the same rows are equal. */
  lemma {:induction false} AscendingUnique(a: seq<Post>, b: seq<Post>)
    requires IdsAscending(a) && IdsAscending(b)
    requires forall p :: p in a <==> p in b
    ensures a == b
  {
    HeadIsMember(a);
    HeadIsMember(b);
    if a != [] && b != [] {
      assert a[0] in b;
      assert b[0] in a;
      assert a[0] == b[0];
      forall p
        ensures p in a[1..] <==> p in b[1..]
      {
        assert p in a[1..] <==> p in a && p != a[0];
        assert p in b[1..] <==> p in b && p != b[0];
      }
      AscendingUnique(a[1..], b[1..]);
      assert a == [a[0]] + a[1..] && b == [b[0]] + b[1..];
    }
  }

  /** The listing: `owner`'s rows that pass the `search` filter, each once,
      sorted descending by the column `orderBy` names; rows with equal keys
      come by ascending id. */
  function List(posts: map<int, Post>, owner: int, search: Option<string>, orderBy: Option<string>): (r: seq<Post>)
    requires WellFormed(posts)
    ensures forall p :: p in r ==> p.id in posts && posts[p.id] == p && p.userId == owner
    ensures forall p :: p in r ==> Matches(p.title, search)
    ensures forall k :: k in posts && Selected(posts[k], owner, search) ==> posts[k] in r
    ensures search.None? || search == Some([]) ==>
      forall k :: k in posts && posts[k].userId == owner ==> posts[k] in r
    ensures forall p :: multiset(r)[p] <= 1
    ensures SortedDesc(ColumnNamed(orderBy), r)
  {
    var s := Selection(posts, owner, search);
    AscendingHasNoDuplicates(s);
    var r := SortDesc(ColumnNamed(orderBy), s);
    assert forall p :: p in r <==> p in s by {
      forall p
        ensures p in r <==> p in s
      {
        assert p in r <==> p in multiset(r);
        assert p in s <==> p in multiset(s);
      }
    }
    r
  }

  /** What `List` shows `owner` depends on `owner`'s rows only: other
      users' rows can neither appear in it nor change its order. */
  lemma ListSeesOnlyOwnRows(posts: map<int, Post>, posts': map<int, Post>, owner: int,
                            search: Option<string>, orderBy: Option<string>)
    requires WellFormed(posts) && WellFormed(posts')
    requires OwnRows(posts, owner) == OwnRows(posts', owner)
    ensures List(posts, owner, search, orderBy) == List(posts', owner, search, orderBy)
  {
    var s, s' := Selection(posts, owner, search), Selection(posts', owner, search);
    var own := OwnRows(posts, owner);
    forall p
      ensures p in s <==> p in s'
    {
      if p in s {
        assert p.id in own && own[p.id] == p;
      }
      if p in s' {
        assert p.id in own && own[p.id] == p;
      }
    }
    AscendingUnique(s, s');
  }

  // ---------------------------------------------------------------------
  // What writes by one user do to what others see

  /** Storing a row owned by `owner` leaves every other user's rows alone. */
  lemma StoreKeepsOthersRows(posts: map<int, Post>, id: int, p: Post, other: int)
    requires p.userId != other
    requires id in posts ==> posts[id].userId != other
    ensures OwnRows(posts[id := p], other) == OwnRows(posts, other)
  {
  }

  /** Removing a row of `owner` leaves every other user's rows alone. */
  lemma RemoveKeepsOthersRows(posts: map<int, Post>, id: int, other: int)
    requires id in posts ==> posts[id].userId != other
    ensures OwnRows(posts - {id}, other) == OwnRows(posts, other)
  {
  }

  /** A write to one of `owner`'s rows (create or update) changes neither
      the listing nor any lookup of another user. */
  lemma StoreInvisibleToOthers(posts: map<int, Post>, id: int, p: Post, other: int, look: int,
                               search: Option<string>, orderBy: Option<string>)
    requires WellFormed(posts) && WellFormed(posts[id := p])
    requires p.userId != other
    requires id in posts ==> posts[id].userId != other
    ensures List(posts[id := p], other, search, orderBy) == List(posts, other, search, orderBy)
    ensures Get(posts[id := p], look, other) == Get(posts, look, other)
  {
    StoreKeepsOthersRows(posts, id, p, other);
    ListSeesOnlyOwnRows(posts[id := p], posts, other, search, orderBy);
    GetSeesOnlyOwnRows(posts[id := p], posts, look, other);
  }

  /** Deleting one of `owner`'s rows changes neither the listing nor any
      lookup of another user. */
  lemma RemoveInvisibleToOthers(posts: map<int, Post>, id: int, other: int, look: int,
                                search: Option<string>, orderBy: Option<string>)
    requires WellFormed(posts)
    requires id in posts ==> posts[id].userId != other
    ensures List(posts - {id}, other, search, orderBy) == List(posts, other, search, orderBy)
    ensures Get(posts - {id}, look, other) == Get(posts, look, other)
  {
    RemoveKeepsOthersRows(posts, id, other);
    ListSeesOnlyOwnRows(posts - {id}, posts, other, search, orderBy);
    GetSeesOnlyOwnRows(posts - {id}, posts, look, other);
  }

  // ---------------------------------------------------------------------
  // The table and its writes

  class PostTable {
    /** The rows, keyed by primary key. */
    var posts: map<int, Post>
    /** The next value of the primary-key sequence. */
    var nextId: int
    /** Ids of the registered users: the targets of the `user_id` key. */
    const users: set<int>

    /** The table's invariant: the primary-key, `String(100)` and `user_id`
        foreign-key rules of the `posts` table, and a counter past every
        stored id, so the next id is always free. */
    ghost predicate Valid()
      reads this
      ensures Valid() ==> nextId !in posts && forall k :: k in posts ==> posts[k].id < nextId
    {
      && WellFormed(posts)
      && 1 <= nextId
      && (forall k :: k in posts ==> k < nextId)
      && (forall k :: k in posts ==> posts[k].userId in users)
    }

    constructor (users: set<int>)
      ensures Valid()
      ensures this.users == users && posts == map[] && nextId == 1
    {
      this.users := users;
      posts := map[];
      nextId := 1;
    }

    /** Creates a post owned by the caller. A title longer than its column
        is refused and nothing is stored. */
    method Create(owner: int, title: string, content: string, now: int) returns (r: Result<Post>)
      requires Valid()
      requires owner in users
      modifies this
      ensures Valid()
      ensures |title| > TitleMaxLength ==>
        r == Err(TitleTooLong) && posts == old(posts) && nextId == old(nextId)
      ensures |title| <= TitleMaxLength ==>
        && r.Ok? && old(nextId) !in old(posts)
        && r.value.id == old(nextId) && r.value.userId == owner
        && r.value.title == title && r.value.content == content
        && r.value.createdAt == now && r.value.updatedAt == now
        && posts == old(posts)[old(nextId) := r.value]
        && nextId == old(nextId) + 1
    {
      if |title| > TitleMaxLength {
        return Err(TitleTooLong);
      }
      var p := Post(nextId, title, content, now, now, owner);
      posts := posts[nextId := p];
      nextId := nextId + 1;
      r := Ok(p);
    }

    /** Updates the caller's post `id` with the supplied fields. An absent
        post and another user's post both give `NotFound`; a title longer
        than its column is refused. Either way nothing changes. */
    method Update(owner: int, id: int, title: Option<string>, content: Option<string>, now: int)
      returns (r: Result<Post>)
      requires Valid()
      modifies this
      ensures Valid() && nextId == old(nextId)
      ensures Get(old(posts), id, owner).None? ==>
        r == Err(NotFound) && posts == old(posts)
      ensures Get(old(posts), id, owner).Some? && title.Some? && |title.value| > TitleMaxLength ==>
        r == Err(TitleTooLong) && posts == old(posts)
      ensures Get(old(posts), id, owner).Some? && (title.Some? ==> |title.value| <= TitleMaxLength) ==>
        && r == Ok(Revised(old(posts)[id], title, content, now))
        && posts == old(posts)[id := r.value]
    {
      var found := Get(posts, id, owner);
      if found.None? {
        return Err(NotFound);
      }
      if title.Some? && |title.value| > TitleMaxLength {
        return Err(TitleTooLong);
      }
      var q := Revised(found.value, title, content, now);
      RevisedFits(found.value, title, content, now);
      posts := posts[id := q];
      r := Ok(q);
    }

    /** Deletes the caller's post `id`. An absent post and another user's
        post both give `NotFound` and nothing changes. */
    method Delete(owner: int, id: int) returns (r: Result<string>)
      requires Valid()
      modifies this
      ensures Valid() && nextId == old(nextId)
      ensures Get(old(posts), id, owner).None? ==>
        r == Err(NotFound) && posts == old(posts)
      ensures Get(old(posts), id, owner).Some? ==>
        r == Ok(DeletedMessage) && posts == old(posts) - {id}
    {
      var found := Get(posts, id, owner);
      if found.None? {
        return Err(NotFound);
      }
      posts := posts - {id};
      r := Ok(DeletedMessage);
    }
  }

  // ---------------------------------------------------------------------
  // Laws relating the operations

  /** A created post is the caller's, shows up in the caller's unfiltered
      listing and can be fetched back unchanged. */
  lemma CreateThenRead(posts: map<int, Post>, id: int, title: string, content: string,
                       owner: int, now: int, orderBy: Option<string>)
    requires WellFormed(posts) && id !in posts && |title| <= TitleMaxLength
    ensures var p := Post(id, title, content, now, now, owner);
      && WellFormed(posts[id := p])
      && p in List(posts[id := p], owner, None, orderBy)
      && Get(posts[id := p], id, owner) == Some(p)
  {
    var p := Post(id, title, content, now, now, owner);
    var posts' := posts[id := p];
    assert WellFormed(posts');
    assert id in posts' && posts'[id] == p && Selected(p, owner, None);
  }

  /** After an update that supplies only a title, the post reads back with
      that title and its old content; with a clock past its last update,
      `updated_at` grows exactly when the title changed. */
  lemma UpdateTitleThenGet(posts: map<int, Post>, id: int, owner: int, t: string, now: int)
    requires Get(posts, id, owner).Some?
    requires now > posts[id].updatedAt
    ensures var q := Revised(posts[id], Some(t), None, now);
      && Get(posts[id := q], id, owner) == Some(q)
      && q.title == t && q.content == posts[id].content
      && q.createdAt == posts[id].createdAt
      && (q.updatedAt > posts[id].updatedAt <==> t != posts[id].title)
  {
    RevisedAdvancesClock(posts[id], Some(t), None, now);
  }

  /** After a delete the post is gone for its owner too, from lookups and
      from every listing. */
  lemma DeleteThenGet(posts: map<int, Post>, id: int, owner: int,
                      search: Option<string>, orderBy: Option<string>)
    requires WellFormed(posts)
    ensures Get(posts - {id}, id, owner) == None
    ensures forall p :: p in List(posts - {id}, owner, search, orderBy) ==> p.id != id
  {
  }
}
