/**
 * The client's post list page: it asks the listing route for one page of five
 * posts at a time and offers a pager of Previous, numbered and Next buttons
 * over the page count the server reports.
 */
module PostList {
  import opened Wrappers
  import Posts

  /** The page size the client asks for. */
  const ClientLimit := 5
  const FetchFailedMessage := "Failed to fetch posts. Please try again later."

  /** Previous: `Math.max(1, p - 1)`. */
  function Previous(p: int): (r: int)
    ensures r >= 1
    ensures p <= 1 ==> r == 1
    ensures p > 1 ==> r == p - 1
  {
    if p - 1 > 1 then p - 1 else 1
  }

  /** Next: `Math.min(totalPages, p + 1)`. */
  function Next(p: int, totalPages: int): (r: int)
    ensures r <= totalPages
    ensures p >= totalPages ==> r == totalPages
    ensures p < totalPages ==> r == p + 1
  {
    if totalPages < p + 1 then totalPages else p + 1
  }

  /** The numbered buttons, left to right, one per page. */
  function PageButtons(totalPages: nat): (r: seq<nat>)
    ensures |r| == totalPages
    ensures forall i :: 0 <= i < |r| ==> r[i] == i + 1
  {
    seq(totalPages, i requires 0 <= i < totalPages => i + 1)
  }

  /** The pager appears only when there is more than one page. */
  predicate ShowsPager(totalPages: int) {
    totalPages > 1
  }

  /** The numbered buttons are exactly the pages 1 to `totalPages`, in increasing order. */
  lemma PageButtonsAreThePages(totalPages: nat)
    ensures forall k :: k in PageButtons(totalPages) <==> 1 <= k <= totalPages
    ensures forall i, j :: 0 <= i < j < totalPages ==> PageButtons(totalPages)[i] < PageButtons(totalPages)[j]
  {
    var r := PageButtons(totalPages);
    forall k | 1 <= k <= totalPages ensures k in r {
      assert r[k - 1] == k;
    }
  }

  /** `1 <= p <= totalPages`: `p` names an existing page. */
  predicate InRange(p: int, totalPages: int) {
    1 <= p <= totalPages
  }

  /** From a page in range, Previous, Next and every numbered button lead to a page in range. */
  lemma TransitionsStayInRange(p: int, totalPages: nat)
    requires InRange(p, totalPages)
    ensures InRange(Previous(p), totalPages)
    ensures InRange(Next(p, totalPages), totalPages)
    ensures forall k :: k in PageButtons(totalPages) ==> InRange(k, totalPages)
    ensures Previous(p) <= p <= Next(p, totalPages)
  {
    PageButtonsAreThePages(totalPages);
  }

  /** Previous undoes Next away from the last page, and Next undoes Previous away from the first. */
  lemma PreviousNextInverse(p: int, totalPages: nat)
    requires InRange(p, totalPages)
    ensures p < totalPages ==> Previous(Next(p, totalPages)) == p
    ensures p > 1 ==> Next(Previous(p), totalPages) == p
  {
  }

  /** The client's page size is the server's default, so asking for it is the same as not asking. */
  lemma ClientLimitIsServerDefault(posts: seq<Posts.Post>, page: Option<nat>, search: string, tag: string)
    requires Posts.ValidListRequest(Posts.ListRequest(page, None, search, tag))
    ensures ClientLimit == Posts.DefaultLimit
    ensures Posts.List(posts, Posts.ListRequest(page, Some(ClientLimit), search, tag))
         == Posts.List(posts, Posts.ListRequest(page, None, search, tag))
  {
  }

  /** What the page shows, in the order the component decides it. */
  datatype View = Skeleton | ErrorMessage(message: string) | NoPosts | Listing(posts: seq<Posts.Post>, pager: bool)

  /** The page for the component's state: loading wins over an error, an error over the posts. */
  function Render(loading: bool, error: Option<string>, posts: seq<Posts.Post>, totalPages: int): (v: View)
    ensures loading <==> v == Skeleton
    ensures v.ErrorMessage? <==> !loading && error.Some?
    ensures v.ErrorMessage? ==> v.message == error.value
    ensures v == NoPosts <==> !loading && error.None? && posts == []
    ensures v.Listing? ==> v.posts == posts && posts != [] && (v.pager <==> ShowsPager(totalPages))
  {
    if loading then Skeleton
    else if error.Some? then ErrorMessage(error.value)
    else if posts == [] then NoPosts
    else Listing(posts, ShowsPager(totalPages))
  }

  /** The component's state. The page starts at 1; a change of page loads that page. */
  class PostList {
    var posts: seq<Posts.Post>
    var loading: bool
    var error: Option<string>
    var page: int
    var totalPages: int

    /** No transition ever takes the page below 1. */
    predicate Valid()
      reads this
    {
      page >= 1
    }

    constructor ()
      ensures Valid()
      ensures posts == [] && loading && error == None && page == 1 && totalPages == 0
    {
      posts := [];
      loading := true;
      error := None;
      page := 1;
      totalPages := 0;
    }

    /** The effect's request: the current page, five posts a page, no filters. */
    method Fetch() returns (req: Posts.ListRequest)
      requires Valid()
      modifies this
      ensures Valid() && loading
      ensures req == Posts.ListRequest(Some(old(page)), Some(ClientLimit), "", "")
      ensures Posts.ValidListRequest(req)
      ensures posts == old(posts) && error == old(error) && page == old(page) && totalPages == old(totalPages)
    {
      loading := true;
      req := Posts.ListRequest(Some(page), Some(ClientLimit), "", "");
    }

    /** The listing arrived: show its posts and its page count, and clear any error. */
    method Fetched(reply: Posts.ListPage)
      modifies this
      ensures posts == reply.posts && totalPages == reply.totalPages
      ensures error == None && !loading && page == old(page)
    {
      posts := reply.posts;
      totalPages := reply.totalPages;
      error := None;
      loading := false;
    }

    /** The request failed: keep the old posts, show the fixed message. */
    method FetchFailed()
      modifies this
      ensures error == Some(FetchFailedMessage) && !loading
      ensures posts == old(posts) && page == old(page) && totalPages == old(totalPages)
    {
      error := Some(FetchFailedMessage);
      loading := false;
    }

    /** The Previous button, which exists only while the pager is shown. */
    method PreviousPage()
      requires Valid() && ShowsPager(totalPages)
      modifies this
      ensures Valid()
      ensures page == Previous(old(page))
      ensures InRange(old(page), totalPages) ==> InRange(page, totalPages)
      ensures posts == old(posts) && loading == old(loading) && error == old(error) && totalPages == old(totalPages)
    {
      page := Previous(page);
    }

    /** The Next button, which exists only while the pager is shown. */
    method NextPage()
      requires Valid() && ShowsPager(totalPages)
      modifies this
      ensures Valid()
      ensures page == Next(old(page), totalPages)
      ensures InRange(old(page), totalPages) ==> InRange(page, totalPages)
      ensures posts == old(posts) && loading == old(loading) && error == old(error) && totalPages == old(totalPages)
    {
      page := Next(page, totalPages);
    }

    /** The numbered button `k`. */
    method GoTo(k: nat)
      requires Valid() && ShowsPager(totalPages) && k in PageButtons(totalPages)
      modifies this
      ensures Valid() && page == k && InRange(page, totalPages)
      ensures posts == old(posts) && loading == old(loading) && error == old(error) && totalPages == old(totalPages)
    {
      PageButtonsAreThePages(totalPages);
      page := k;
    }
  }

  /** With seven matching posts the pager has two pages: Next from page 1 reaches page 2 and stays there. */
  lemma SevenPostsPager()
    ensures var total := Posts.PageCount(7, ClientLimit);
      && total == 2 && ShowsPager(total) && PageButtons(total) == [1, 2]
      && Next(1, total) == 2 && Next(2, total) == 2 && Previous(2) == 1 && Previous(1) == 1
  {
  }
}
