/**
 * Request sequences against fresh stores, each checked end to end through the
 * route contracts: register then look up the current user, register one email
 * twice, and edit a post as a stranger and then as its author.
 */
module Scenarios {
  import opened Wrappers
  import opened Http
  import Auth
  import Posts

  /** Registering amy and asking `/auth/me` with her token's subject gives amy back, without a password. */
  method RegisterThenMe() returns (registered: Reply<Auth.Session>, me: Reply<Auth.PublicUser>)
    ensures registered.Ok? && registered.status == Created
    ensures me == Ok(OK, Auth.PublicUser(registered.value.token.userId, "amy", "a@x.com"))
  {
    var users := new Auth.UserStore();
    registered := users.Register(Auth.RegisterBody("amy", "a@x.com", "secret123"), 1000);
    me := Auth.Me(users.users, registered.value.token.userId);
  }

  /** A second registration with a taken email fails whatever the username, and saves nobody. */
  method RegisterEmailTwice() returns (first: Reply<Auth.Session>, second: Reply<Auth.Session>, count: nat)
    ensures first.Ok? && second == Fail(BadRequest, Auth.EmailTaken) && count == 1
  {
    var users := new Auth.UserStore();
    first := users.Register(Auth.RegisterBody("amy", "a@x.com", "secret123"), 1000);
    second := users.Register(Auth.RegisterBody("bob", "a@x.com", "other-pass"), 2000);
    count := |users.users|;
  }

  /** Author 1 creates a post; author 2 may not update it, author 1 may, and gets the new title back. */
  method UpdateAsStrangerThenAuthor() returns (stranger: Reply<Posts.Post>, author: Reply<Posts.Post>)
    ensures stranger == Fail(Forbidden, Posts.NotAuthorToUpdate)
    ensures author.Ok? && author.status == OK && author.value.title == "Hello" && author.value.author == 1
  {
    var store := new Posts.PostStore();
    var created := store.Create(1, Posts.PostBody("Hi There", "0123456789", ["x"], None), 5000);
    var id := created.value.id;
    assert store.posts == [created.value];
    stranger := store.Update(id, 2, Posts.PostBody("Hello", "0123456789", ["x"], None));
    author := store.Update(id, 1, Posts.PostBody("Hello", "0123456789", ["x"], None));
  }

  /** A stranger may not delete the post either, and the post stays. */
  method DeleteAsStranger() returns (r: Reply<string>, left: nat)
    ensures r == Fail(Forbidden, Posts.NotAuthorToDelete) && left == 1
  {
    var store := new Posts.PostStore();
    var created := store.Create(1, Posts.PostBody("Hi There", "0123456789", ["x"], None), 5000);
    assert store.posts == [created.value];
    r := store.Delete(created.value.id, 2);
    left := |store.posts|;
  }
}
