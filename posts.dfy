/**
 * The post routes of the blog API (`/posts`): the paginated, searchable
 * listing, and create / get / update / delete with their existence and
 * authorship checks, over an in-memory post collection.
 */
module Posts {
  import opened Wrappers
  import opened Http
  import Lookup
  import Text

  type PostId = nat

  /** A stored post. `createdAt` is the store's creation timestamp. */
  datatype Post = Post(
    id: PostId,
    title: string,
    content: string,
    tags: seq<string>,
    author: UserId,
    createdAt: int)

  /** The JSON body of a create or update request; an `author` the client sends is ignored. */
  datatype PostBody = PostBody(title: string, content: string, tags: seq<string>, author: Option<UserId>)

  /** The query string of a listing request; "" stands for an absent `search` or `tag`. */
  datatype ListRequest = ListRequest(page: Option<nat>, limit: Option<nat>, search: string, tag: string)

  /** The JSON body of a listing reply. */
  datatype ListPage = ListPage(posts: seq<Post>, totalPages: nat, currentPage: nat, totalPosts: nat)

  const DefaultPage := 1
  const DefaultLimit := 5

  const PostNotFound := "Post not found"
  const NotAuthorToUpdate := "Not authorized to update this post"
  const NotAuthorToDelete := "Not authorized to delete this post"
  const PostDeleted := "Post deleted successfully"

  /** The query string the listing route accepts: page and limit, when given, are at least 1. */
  predicate ValidListRequest(req: ListRequest) {
    (req.page.Some? ==> req.page.value >= 1) && (req.limit.Some? ==> req.limit.value >= 1)
  }

  /**
   * The store query the listing builds: a non-empty `search` must occur,
   * ignoring case, in the title or the content; a non-empty `tag` must be one
   * of the post's tags. With neither filter every post matches, and a post
   * holding the search term with the very same case matches it.
   */
  function Matches(p: Post, search: string, tag: string): (b: bool)
    ensures search == "" && tag == "" ==> b
    ensures b && tag != "" ==> tag in p.tags
    ensures (Text.Contains(p.title, search) || Text.Contains(p.content, search)) && (tag == "" || tag in p.tags) ==> b
  {
    && (search != "" ==> Text.ContainsIgnoringCase(p.title, search) || Text.ContainsIgnoringCase(p.content, search))
    && (tag != "" ==> tag in p.tags)
  }

  /** The posts of `posts` that match, in store order. */
  function Select(posts: seq<Post>, search: string, tag: string): (r: seq<Post>)
    ensures forall p :: p in r <==> p in posts && Matches(p, search, tag)
    ensures multiset(r) <= multiset(posts)
    ensures search == "" && tag == "" ==> r == posts
  {
    if posts == [] then []
    else
      var rest := Select(posts[1..], search, tag);
      assert posts == [posts[0]] + posts[1..];
      if Matches(posts[0], search, tag) then [posts[0]] + rest else rest
  }

  /** Newest first: `createdAt` never increases along `s`. */
  predicate NewestFirst(s: seq<Post>) {
    forall i, j :: 0 <= i < j < |s| ==> s[i].createdAt >= s[j].createdAt
  }

  /** `p` placed in the newest-first sequence `s` before the first post not newer than it. */
  function Insert(p: Post, s: seq<Post>): (r: seq<Post>)
    requires NewestFirst(s)
    ensures NewestFirst(r)
    ensures multiset(r) == multiset(s) + multiset{p}
  {
    if s == [] || s[0].createdAt <= p.createdAt then
      NewestFirstCons(p, s);
      [p] + s
    else
      var rest := Insert(p, s[1..]);
      assert s == [s[0]] + s[1..];
      NoNewerThan(rest, s[1..], p, s[0].createdAt);
      NewestFirstCons(s[0], rest);
      [s[0]] + rest
  }

  /** A post no older than the head of a newest-first sequence can go in front of it. */
  lemma NewestFirstCons(p: Post, s: seq<Post>)
    requires NewestFirst(s)
    requires forall k :: 0 <= k < |s| ==> s[k].createdAt <= p.createdAt
    ensures NewestFirst([p] + s)
  {
    var r := [p] + s;
    forall i, j | 0 <= i < j < |r| ensures r[i].createdAt >= r[j].createdAt {
      assert r[j] == s[j - 1];
      if i > 0 { assert r[i] == s[i - 1]; }
    }
  }

  /** A rearrangement of `s` and `p` holds no post newer than `bound` when neither does. */
  lemma NoNewerThan(r: seq<Post>, s: seq<Post>, p: Post, bound: int)
    requires multiset(r) == multiset(s) + multiset{p}
    requires p.createdAt <= bound
    requires forall k :: 0 <= k < |s| ==> s[k].createdAt <= bound
    ensures forall j :: 0 <= j < |r| ==> r[j].createdAt <= bound
  {
    forall j | 0 <= j < |r| ensures r[j].createdAt <= bound {
      assert r[j] in multiset(s) + multiset{p};
      if r[j] != p {
        assert r[j] in s;
      }
    }
  }

  /** `sort({ createdAt: -1 })`: the same posts, newest first; posts created together keep store order. */
  function SortNewestFirst(s: seq<Post>): (r: seq<Post>)
    ensures NewestFirst(r)
    ensures multiset(r) == multiset(s)
  {
    if s == [] then []
    else
      assert s == [s[0]] + s[1..];
      Insert(s[0], SortNewestFirst(s[1..]))
  }

  function Min(a: int, b: int): int { if a <= b then a else b }

  /** `skip(skip).limit(limit)`: at most `limit` posts of `s`, starting at position `skip`. */
  function Window(s: seq<Post>, skip: nat, limit: nat): (r: seq<Post>)
    ensures |r| <= limit
    ensures |r| == if skip >= |s| then 0 else Min(limit, |s| - skip)
    ensures forall i :: 0 <= i < |r| ==> r[i] == s[skip + i]
  {
    if skip >= |s| then [] else s[skip..Min(|s|, skip + limit)]
  }

  /** The number of positions the pages before page `page` take up, page by page. */
  function Offset(page: nat, limit: nat): nat
    requires page >= 1
  {
    if page == 1 then 0 else Offset(page - 1, limit) + limit
  }

  /** The earlier pages take up `(page - 1) * limit` positions. */
  lemma {:induction false} OffsetIsProduct(page: nat, limit: nat)
    requires page >= 1
    ensures Offset(page, limit) == (page - 1) * limit
  {
    if page > 1 {
      OffsetIsProduct(page - 1, limit);
    }
  }

  /**
   * `skip((page - 1) * limit).limit(limit)`: page `page` of `limit` posts, the
   * posts of `s` from the end of the earlier pages on.
   */
  function Paginate(s: seq<Post>, page: nat, limit: nat): (r: seq<Post>)
    requires page >= 1
    ensures |r| <= limit
    ensures |r| == if Offset(page, limit) >= |s| then 0 else Min(limit, |s| - Offset(page, limit))
    ensures forall i :: 0 <= i < |r| ==> r[i] == s[Offset(page, limit) + i]
  {
    Window(s, Offset(page, limit), limit)
  }

  /**
   * Page `page` holds the posts at positions `(page - 1) * limit` up to, but
   * excluding, `page * limit`, as far as `s` reaches.
   */
  lemma PageIndices(s: seq<Post>, page: nat, limit: nat)
    requires page >= 1 && limit >= 1
    ensures var r, skip := Paginate(s, page, limit), (page - 1) * limit;
      && |r| <= limit
      && |r| == (if skip >= |s| then 0 else Min(limit, |s| - skip))
      && forall i :: 0 <= i < |r| ==> r[i] == s[skip + i]
  {
    OffsetIsProduct(page, limit);
  }

  /** `Math.ceil(count / limit)`: the fewest pages of `limit` posts that hold `count` posts. */
  function PageCount(count: nat, limit: nat): (r: nat)
    requires limit >= 1
    ensures count <= r * limit
    ensures r > 0 ==> (r - 1) * limit < count
  {
    var q := (count + limit - 1) / limit;
    var m := (count + limit - 1) % limit;
    assert count + limit - 1 == q * limit + m && 0 <= m < limit;
    assert (q - 1) * limit == q * limit - limit;
    q
  }

  /** A window holds posts of `s` only, and a window of a newest-first sequence is newest first. */
  lemma WindowOf(s: seq<Post>, skip: nat, limit: nat)
    ensures forall p :: p in Window(s, skip, limit) ==> p in s
    ensures NewestFirst(s) ==> NewestFirst(Window(s, skip, limit))
  {
    var r := Window(s, skip, limit);
    forall p | p in r ensures p in s {
      var i :| 0 <= i < |r| && r[i] == p;
      assert s[skip + i] == p;
    }
    if NewestFirst(s) {
      forall i, j | 0 <= i < j < |r| ensures r[i].createdAt >= r[j].createdAt {
        assert r[i] == s[skip + i] && r[j] == s[skip + j];
      }
    }
  }

  /**
   * The `GET /posts` route: filter, sort newest first, then cut out the
   * requested page. The listed posts number at most the limit, are newest
   * first, and are all store posts matching the search and the tag.
   */
  function List(posts: seq<Post>, req: ListRequest): (r: ListPage)
    requires ValidListRequest(req)
    ensures |r.posts| <= req.limit.GetOr(DefaultLimit)
    ensures NewestFirst(r.posts)
    ensures forall p :: p in r.posts ==> p in posts && Matches(p, req.search, req.tag)
    ensures r.currentPage == req.page.GetOr(DefaultPage)
  {
    var page := req.page.GetOr(DefaultPage);
    var limit := req.limit.GetOr(DefaultLimit);
    var matching := Select(posts, req.search, req.tag);
    var sorted := SortNewestFirst(matching);
    WindowOf(sorted, Offset(page, limit), limit);
    assert forall p :: p in sorted ==> p in matching by {
      forall p | p in sorted ensures p in matching {
        assert p in multiset(sorted);
      }
    }
    ListPage(Paginate(sorted, page, limit), PageCount(|matching|, limit), page, |matching|)
  }

  /**
   * The listed posts are the matching posts, sorted newest first, from
   * position `(page - 1) * limit` on: as many as `limit` allows and the
   * matches reach, and none when the page starts past the last match.
   */
  lemma ListedSlice(posts: seq<Post>, req: ListRequest, page: nat, limit: nat)
    requires ValidListRequest(req)
    requires page == req.page.GetOr(DefaultPage) && limit == req.limit.GetOr(DefaultLimit)
    ensures var r, sorted := List(posts, req), SortNewestFirst(Select(posts, req.search, req.tag));
      && |r.posts| == (if (page - 1) * limit >= |sorted| then 0 else Min(limit, |sorted| - (page - 1) * limit))
      && forall i :: 0 <= i < |r.posts| ==> r.posts[i] == sorted[(page - 1) * limit + i]
  {
    var sorted := SortNewestFirst(Select(posts, req.search, req.tag));
    assert List(posts, req).posts == Paginate(sorted, page, limit);
    PageIndices(sorted, page, limit);
  }

  /** `totalPosts` counts every matching post and `totalPages` is its ceiling quotient, whatever the page. */
  lemma ListCounts(posts: seq<Post>, req: ListRequest)
    requires ValidListRequest(req)
    ensures var r := List(posts, req);
      var limit := req.limit.GetOr(DefaultLimit);
      && r.totalPosts == |Select(posts, req.search, req.tag)|
      && r.totalPosts <= r.totalPages * limit
      && (r.totalPages > 0 ==> (r.totalPages - 1) * limit < r.totalPosts)
      && r.currentPage == req.page.GetOr(DefaultPage)
      && r.totalPages == List(posts, req.(page := None)).totalPages
  {
  }

  /** The pages `1..n` of `s`, one after another. */
  function Pages(s: seq<Post>, limit: nat, n: nat): seq<Post>
    requires limit >= 1
  {
    if n == 0 then [] else Pages(s, limit, n - 1) + Paginate(s, n, limit)
  }

  /** The first `n` pages hold the posts before page `n + 1`. */
  lemma {:induction false} PagesArePrefix(s: seq<Post>, limit: nat, n: nat)
    requires limit >= 1
    ensures Pages(s, limit, n) == s[..Min(|s|, Offset(n + 1, limit))]
  {
    if n > 0 {
      PagesArePrefix(s, limit, n - 1);
      var skip, end := Offset(n, limit), Offset(n + 1, limit);
      var page := Window(s, skip, limit);
      assert Pages(s, limit, n) == s[..Min(|s|, skip)] + page;
      if skip >= |s| {
        assert Min(|s|, end) == |s| == Min(|s|, skip);
      } else {
        assert page == s[skip..Min(|s|, end)];
        assert s[..skip] + s[skip..Min(|s|, end)] == s[..Min(|s|, end)];
      }
    }
  }

  /** `PageCount(count, limit)` pages take up at least `count` positions. */
  lemma PagesHoldAll(count: nat, limit: nat)
    requires limit >= 1
    ensures Offset(PageCount(count, limit) + 1, limit) >= count
  {
    var n := PageCount(count, limit);
    OffsetIsProduct(n + 1, limit);
    assert n + 1 - 1 == n;
  }

  /**
   * Walking the pages `1..totalPages` shows every matching post exactly once,
   * newest first: together they are the sorted matching posts.
   */
  lemma AllPagesListEveryMatch(posts: seq<Post>, search: string, tag: string, limit: nat)
    requires limit >= 1
    ensures var sorted := SortNewestFirst(Select(posts, search, tag));
      Pages(sorted, limit, PageCount(|sorted|, limit)) == sorted
  {
    var sorted := SortNewestFirst(Select(posts, search, tag));
    var n := PageCount(|sorted|, limit);
    PagesArePrefix(sorted, limit, n);
    PagesHoldAll(|sorted|, limit);
    assert Min(|sorted|, Offset(n + 1, limit)) == |sorted|;
  }

  /** Seven matching posts with the default limit: page 2 holds two of them, out of two pages. */
  lemma SevenPostsSecondPage(posts: seq<Post>)
    requires |posts| == 7
    ensures var r := List(posts, ListRequest(Some(2), None, "", ""));
      |r.posts| == 2 && r.totalPages == 2 && r.totalPosts == 7
  {
    var sorted := SortNewestFirst(Select(posts, "", ""));
    assert |sorted| == |multiset(sorted)| == 7;
  }

  /** Index of the post with id `id`, if the store holds one (`findById`). */
  function Find(posts: seq<Post>, id: PostId): (r: Option<nat>)
    ensures r.Some? ==> r.value < |posts| && posts[r.value].id == id
    ensures r.Some? ==> forall j :: 0 <= j < r.value ==> posts[j].id != id
    ensures r.None? <==> forall j :: 0 <= j < |posts| ==> posts[j].id != id
  {
    Lookup.FindFirst(posts, (p: Post) => p.id == id)
  }

  /** Every post id occurs at most once. */
  ghost predicate UniqueIds(posts: seq<Post>) {
    forall i, j :: 0 <= i < j < |posts| ==> posts[i].id != posts[j].id
  }

  /** The `GET /posts/:id` route: the post with that id, or 404. */
  function Get(posts: seq<Post>, id: PostId): (r: Reply<Post>)
    ensures r.Ok? ==> r.status == OK && r.value in posts && r.value.id == id
    ensures r.Fail? <==> forall p :: p in posts ==> p.id != id
    ensures r.Fail? ==> r == Fail(NotFound, PostNotFound)
  {
    match Find(posts, id)
    case None => Fail(NotFound, PostNotFound)
    case Some(i) => Ok(OK, posts[i])
  }

  /** `post` with title, content and tags taken from `body`; id, author and creation time kept. */
  function Edited(post: Post, body: PostBody): (r: Post)
    ensures r.title == body.title && r.content == body.content && r.tags == body.tags
    ensures r.id == post.id && r.author == post.author && r.createdAt == post.createdAt
  {
    post.(title := body.title, content := body.content, tags := body.tags)
  }

  /** Removing index `i` shifts every later post down by one. */
  lemma RemovedIndices(before: seq<Post>, i: nat)
    requires i < |before|
    ensures var after := before[..i] + before[i + 1..];
      && |after| == |before| - 1
      && forall k :: 0 <= k < |after| ==> after[k] == before[if k < i then k else k + 1]
  {
  }

  /** Removing the post at index `i` of a store with unique ids removes exactly the posts with its id. */
  lemma RemoveAt(before: seq<Post>, i: nat)
    requires UniqueIds(before) && i < |before|
    ensures var after := before[..i] + before[i + 1..];
      && UniqueIds(after)
      && (forall p :: p in after <==> p in before && p.id != before[i].id)
  {
    RemovedIndices(before, i);
    RemovedMembers(before, i);
    var after := before[..i] + before[i + 1..];
    forall a, b | 0 <= a < b < |after| ensures after[a].id != after[b].id {
      assert after[a] == before[if a < i then a else a + 1];
      assert after[b] == before[if b < i then b else b + 1];
    }
  }

  /** After removing index `i`, the posts left are exactly those without its id. */
  lemma RemovedMembers(before: seq<Post>, i: nat)
    requires UniqueIds(before) && i < |before|
    ensures var after := before[..i] + before[i + 1..];
      forall p :: p in after <==> p in before && p.id != before[i].id
  {
    var after := before[..i] + before[i + 1..];
    RemovedIndices(before, i);
    forall p | p in after ensures p in before && p.id != before[i].id {
      var k :| 0 <= k < |after| && after[k] == p;
      assert p == before[if k < i then k else k + 1];
    }
    forall p | p in before && p.id != before[i].id ensures p in after {
      var j :| 0 <= j < |before| && before[j] == p;
      assert after[if j < i then j else j - 1] == p;
    }
  }

  /** The post collection; `nextId` is the id the store gives to the next post it saves. */
  class PostStore {
    var posts: seq<Post>
    var nextId: PostId

    /** Ids are unique and all below `nextId`. */
    ghost predicate Valid()
      reads this
    {
      && UniqueIds(posts)
      && forall i :: 0 <= i < |posts| ==> posts[i].id < nextId
    }

    constructor ()
      ensures Valid() && posts == []
    {
      posts := [];
      nextId := 0;
    }

    /**
     * The `POST /posts` route for the authenticated user `userId`: saves one
     * new post, created at `now`, whose author is `userId` whatever the body says.
     */
    method Create(userId: UserId, body: PostBody, now: int) returns (r: Reply<Post>)
      requires Valid()
      modifies this
      ensures Valid()
      ensures r.Ok? && r.status == Created
      ensures r.value.author == userId && r.value.createdAt == now
      ensures r.value.title == body.title && r.value.content == body.content && r.value.tags == body.tags
      ensures forall p :: p in old(posts) ==> p.id != r.value.id
      ensures posts == old(posts) + [r.value]
    {
      var post := Post(nextId, body.title, body.content, body.tags, userId, now);
      posts := posts + [post];
      nextId := nextId + 1;
      r := Ok(Created, post);
    }

    /**
     * The `PUT /posts/:id` route for the authenticated user `userId`: 404 when
     * the post is missing, else 403 when `userId` is not its author, else the
     * post's title, content and tags are replaced and nothing else changes.
     */
    method Update(id: PostId, userId: UserId, body: PostBody) returns (r: Reply<Post>)
      requires Valid()
      modifies this
      ensures Valid()
      ensures Find(old(posts), id).None? ==> r == Fail(NotFound, PostNotFound) && posts == old(posts)
      ensures Find(old(posts), id).Some? ==>
        var i := Find(old(posts), id).value;
        if old(posts)[i].author != userId then
          r == Fail(Forbidden, NotAuthorToUpdate) && posts == old(posts)
        else
          && r == Ok(OK, Edited(old(posts)[i], body))
          && posts == old(posts)[i := r.value]
      ensures r.Ok? ==> r.value.id == id && r.value.author == userId
      ensures nextId == old(nextId)
      ensures |posts| == |old(posts)|
      ensures forall j :: 0 <= j < |posts| && posts[j].id != id ==> posts[j] == old(posts)[j]
    {
      var found := Find(posts, id);
      if found.None? {
        return Fail(NotFound, PostNotFound);
      }
      var i := found.value;
      if posts[i].author != userId {
        return Fail(Forbidden, NotAuthorToUpdate);
      }
      var updated := Edited(posts[i], body);
      posts := posts[i := updated];
      r := Ok(OK, updated);
    }

    /**
     * The `DELETE /posts/:id` route for the authenticated user `userId`: 404
     * when the post is missing, else 403 when `userId` is not its author, else
     * that post, and only it, leaves the store.
     */
    method Delete(id: PostId, userId: UserId) returns (r: Reply<string>)
      requires Valid()
      modifies this
      ensures Valid()
      ensures Find(old(posts), id).None? ==> r == Fail(NotFound, PostNotFound) && posts == old(posts)
      ensures Find(old(posts), id).Some? ==>
        var i := Find(old(posts), id).value;
        if old(posts)[i].author != userId then
          r == Fail(Forbidden, NotAuthorToDelete) && posts == old(posts)
        else
          && r == Ok(OK, PostDeleted)
          && posts == old(posts)[..i] + old(posts)[i + 1..]
      ensures r.Ok? ==> forall p :: p in posts <==> p in old(posts) && p.id != id
      ensures nextId == old(nextId)
    {
      var found := Find(posts, id);
      if found.None? {
        return Fail(NotFound, PostNotFound);
      }
      var i := found.value;
      if posts[i].author != userId {
        return Fail(Forbidden, NotAuthorToDelete);
      }
      RemovedIndices(posts, i);
      RemoveAt(posts, i);
      posts := posts[..i] + posts[i + 1..];
      r := Ok(OK, PostDeleted);
    }
  }
}
