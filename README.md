# Blog management: a verified model of the post and auth routes and the post pages

This project models the core of a small blog system in Dafny:

- the REST routes of its Express API for posts (list, create, get, update, delete);
- its authentication routes (register, login, current user);
- two React pages of its client: the post form and the post list.

The API's MongoDB collections become in-memory sequences. The listing, get, login and
current-user routes only read the store, so they are functions: `Posts.List`,
`Posts.Get`, `Auth.Login` and `Auth.Me`. The routes that change the store are methods
of two store classes: `Posts.PostStore` (create, update, delete) and
`Auth.UserStore` (register). Each route's reply is a `Http.Reply`: either a status
code with a value, or a status code with the error message the route sends.

Both client pages are classes whose fields are the component's React state. Their
methods are the effects and event handlers that set that state. The pure parts the
handlers use are functions with lemmas about them:

- the tag codec: split on commas and trim on submit, join with `", "` on load;
- the pager transitions `max(1, p - 1)` and `min(totalPages, p + 1)`.

Modules: `Wrappers` (Option), `Http` (status codes, replies, user ids), `Lookup`
(first match in a sequence, as `findOne` and `findById` return it), `Text`
(JavaScript `trim`, `split`, `join`, ASCII case folding, substring),
`Posts`, `Auth`, `PostForm`, `PostList`, and `Scenarios` (request sequences
against fresh stores).

The main properties proved:

- **Listing.** Listing keeps exactly the posts that match both filters, newest
  first. It returns the window at positions `(page - 1) * limit` onwards and at most
  `limit` posts. `totalPosts` is the number of matches and `totalPages` is its ceiling
  quotient, whatever the page. Walking pages `1..totalPages` shows every match once,
  and 7 posts give 2 on page 2 of 2.
- **Get, update and delete** check in a fixed order: 404 when the post is missing,
  then 403 when the caller is not its author. Only then does the update or delete
  happen. A delete removes exactly that post, and an update changes only that post.
- **Register and login.**
  - Register rejects missing fields and taken emails or usernames.
  - Otherwise it appends one user with a hashed password and a fresh id. Usernames,
    emails and ids stay unique.
  - Login succeeds for the first user with the email when the password matches. It
    replies with the same 401 whether the email is unknown or the password is wrong.
  - Tokens last 24 hours.
- **Post form.** Tags without commas and without surrounding white space survive a load
  followed by a submit. The one exception is the single empty tag. The form sends a
  PUT to `/posts/<id>` exactly when it has an id, and otherwise a POST to `/posts`.
- **Post list.** The pager's transitions keep the page in `1..totalPages`. The numbered
  buttons are exactly `1..totalPages`. The client's page size of 5 is the server's
  default.

## Model

| member | source | states |
|---|---|---|
| Lookup.FindFirst | backend/routes/auth.js:103 | `findOne` returns a match, taken in the model to be the first in store order. The result is an index whose element satisfies the test, with no earlier element satisfying it. None means no element satisfies it. |
| Text.TrimStart | frontend/src/components/PostForm.js:56 | The result is a suffix of the input. Everything dropped is white space. The result does not start with white space. |
| Text.TrimEnd | frontend/src/components/PostForm.js:56 | The result is a prefix of the input. Everything dropped is white space. The result does not end with white space. |
| Text.PrefixOfSuffix | frontend/src/components/PostForm.js:56-57 | Cutting white space off the front and then off the back leaves a slice of the input with only white space around it. |
| Text.StartThenEndTrimmed | frontend/src/components/PostForm.js:56-57 | Cutting white space off both ends leaves no white space at either end, keeps only input characters, and leaves a trimmed string alone. |
| Text.Trim | frontend/src/components/PostForm.js:56-57 | `trim` gives the slice of the input that is left once the white space at both ends is gone: everything before and after the slice is white space, and the slice neither starts nor ends with white space. An already trimmed string is unchanged. |
| Text.TrimIdempotent | frontend/src/components/PostForm.js:59 | Trimming twice equals trimming once. |
| Text.TrimSkipsLeadingSpace | frontend/src/components/PostForm.js:59 | A leading white-space character does not change the trimmed string. |
| Text.Join | frontend/src/components/PostForm.js:28 | `join` of no parts is "". Otherwise the joined string starts with the first part and ends with the last. |
| Text.JoinPrepend | frontend/src/components/PostForm.js:28 | Prefixing the first part prefixes the joined string. |
| Text.Split | frontend/src/components/PostForm.js:59 | `split(',')` always yields at least one piece, and no piece contains the separator. |
| Text.SplitCount | frontend/src/components/PostForm.js:59 | There is one piece more than there are separators in the string. |
| Text.JoinSplit | frontend/src/components/PostForm.js:59 | Joining the pieces with the separator gives back the original string. |
| Text.SplitWithoutSeparator | frontend/src/components/PostForm.js:59 | A string without the separator splits into itself alone. |
| Text.SplitAfterPiece | frontend/src/components/PostForm.js:59 | Splitting `a + sep + b`, where `a` has no separator, gives `a` followed by the pieces of `b`. |
| Text.LowerChar | backend/routes/posts.js:14-15 | The `i` option folds each ASCII capital to its own lower-case letter (code point plus 32) and leaves every other character alone. |
| Text.Lower | backend/routes/posts.js:14-15 | Case folding keeps the length and folds each character in place. |
| Text.LowerIdempotent | backend/routes/posts.js:14-15 | Case folding a folded string changes nothing. |
| Text.ContainsIgnoringCase | backend/routes/posts.js:14-15 | The empty pattern always matches, and a pattern that occurs with the same case matches too. |
| Text.CaseIgnored | backend/routes/posts.js:14-15 | Changing the text or the search term to lower case does not change whether the search matches. |
| Posts.Matches | backend/routes/posts.js:10-21 | With no search and no tag every post matches. A post matching a tag holds that tag. A post that holds the search term, with the same case, in its title or content matches it, given the tag condition. |
| Posts.Select | backend/routes/posts.js:10-25 | A post is selected exactly when it is in the store and matches both the search and the tag filter. The selection is a sub-multiset of the store. With no filters every post is selected, in store order. |
| Posts.Insert | backend/routes/posts.js:30 | Inserting into a newest-first sequence keeps it newest first and adds exactly that one post. |
| Posts.NewestFirstCons | backend/routes/posts.js:30 | A post no older than every post of a newest-first sequence can be placed in front of it. |
| Posts.NoNewerThan | backend/routes/posts.js:30 | A rearrangement of posts that are all no newer than a bound contains no post newer than that bound. |
| Posts.SortNewestFirst | backend/routes/posts.js:30 | `sort({ createdAt: -1 })` gives the same multiset of posts, ordered by `createdAt` descending. |
| Posts.Window | backend/routes/posts.js:31-32 | `skip(k).limit(l)` returns at most `l` posts: the posts from position `k` on, as many as `l` allows and the input reaches. |
| Posts.OffsetIsProduct | backend/routes/posts.js:32 | The pages before page `p` take up `(p - 1) * l` positions; this is the whole meaning of `Posts.Offset`. |
| Posts.Paginate | backend/routes/posts.js:31-32 | Page `p` of `l` posts holds at most `l` posts, the posts of the input from the end of the earlier pages on, as far as the input reaches. |
| Posts.PageIndices | backend/routes/posts.js:31-32 | Page `p` holds the posts at positions `(p - 1) * l` onwards, and at most `l` of them. |
| Posts.PageCount | backend/routes/posts.js:41 | `Math.ceil(count / limit)` is the smallest number of pages that holds all `count` posts. |
| Posts.WindowOf | backend/routes/posts.js:31-32 | A page holds only posts of its input. A page of a newest-first sequence is itself newest first. |
| Posts.List | backend/routes/posts.js:7-44 | The `GET /posts` reply lists at most the limit (5 by default) posts, newest first, all of them store posts matching the search and the tag, and echoes the requested page (1 by default). Its exact slice and counts are stated by `Posts.ListedSlice` and `Posts.ListCounts`. |
| Posts.ListedSlice | backend/routes/posts.js:9-33 | The listed posts are exactly the sorted matches at positions `(page - 1) * limit` onwards, with the stated length. |
| Posts.ListCounts | backend/routes/posts.js:37-43 | `totalPosts` is the number of matches. `totalPages` is its ceiling quotient and does not depend on the page. `currentPage` is the requested page, or 1 by default. |
| Posts.PagesArePrefix | backend/routes/posts.js:31-32 | Pages `1..n` laid end to end are the first `n` pages' worth of posts. |
| Posts.PagesHoldAll | backend/routes/posts.js:41 | `totalPages` pages have room for every match. |
| Posts.AllPagesListEveryMatch | backend/routes/posts.js:30-41 | Pages `1..totalPages` together are exactly the sorted matches, each shown once. |
| Posts.SevenPostsSecondPage | backend/routes/posts.js:9-43 | With 7 posts and the default limit, page 2 holds 2 posts, `totalPages` is 2 and `totalPosts` is 7. |
| Posts.Find | backend/routes/posts.js:83 | `findById` gives the first post with the id, and nothing exactly when no post has it. |
| Posts.Get | backend/routes/posts.js:83-90 | The reply is 404 "Post not found" exactly when no post has the id. Otherwise it is 200 with a store post that has the id. |
| Posts.RemovedIndices | backend/routes/posts.js:142 | Deleting the post at index `i` shifts every later post down by one. |
| Posts.RemovedMembers | backend/routes/posts.js:142 | Deleting that post removes exactly the posts with its id. |
| Posts.RemoveAt | backend/routes/posts.js:142 | The store after the delete still has unique ids and holds exactly the other posts. |
| Posts.Edited | backend/routes/posts.js:111-119 | The update takes the title, content and tags from the body and keeps the id, the author and the creation time. |
| Posts.PostStore.Create | backend/routes/posts.js:56-73 | The reply is 201 with the body's title, content and tags and the caller as author. An author sent in the body is ignored. The new post gets a fresh id, and the store grows by exactly that post. |
| Posts.PostStore.Update | backend/routes/posts.js:100-121 | 404 if the post is missing, else 403 "Not authorized to update this post" when the caller is not its author; in those cases the posts are unchanged. Otherwise the reply is 200 with the post whose title, content and tags are replaced, and no other post changes. The id counter never changes. |
| Posts.PostStore.Delete | backend/routes/posts.js:131-143 | 404 if the post is missing, else 403 when the caller is not its author; in those cases the posts are unchanged. Otherwise that post alone leaves the store, with reply "Post deleted successfully". The id counter never changes. |
| Auth.IssueToken | backend/routes/auth.js:50-54 | The token's subject is the user. It expires 24 hours (86400 s) after it is issued. |
| Auth.FindConflict | backend/routes/auth.js:24-26 | `findOne` with `$or` gives the first user holding the email or the username, and nothing exactly when no user holds either. |
| Auth.ConflictMessage | backend/routes/auth.js:24-35 | There is no conflict exactly when no user has the email or the username. Otherwise, for the first user holding either, the message is "Email already registered" when that user has the email and "Username already taken" when not. |
| Auth.FindByEmail | backend/routes/auth.js:103 | `findOne({ email })` gives the first user with the email, and nothing exactly when no user has it. |
| Auth.FirstHolderFound | backend/routes/auth.js:103 | The first user holding an email is the one `findOne` returns. |
| Auth.PasswordMatchesExactly | backend/routes/auth.js:110-111 | A password checks out against the digest saved at registration exactly when it is the registered password. |
| Auth.FindById | backend/routes/auth.js:167 | `findById` gives the first user with the id, and nothing exactly when no user has it. |
| Auth.Login | backend/routes/auth.js:96-133 | 400 exactly when the email or password is missing. 401 "Invalid email or password" for an unknown email, and the only other failure is the same 401. For the first user with the email the reply is 200 "Login successful" with that user minus the password and a token for it when the password matches, and the 401 when it does not. |
| Auth.RightPasswordLogsIn | backend/routes/auth.js:103-133 | With unique emails, a user who gives their email and their registered password logs in as themself. |
| Auth.WrongPasswordLooksLikeUnknownEmail | backend/routes/auth.js:103-116 | A known email with a wrong password gets exactly the reply an unknown email gets. |
| Auth.Me | backend/routes/auth.js:167-171 | The reply is 404 "User not found" exactly when no user has the id. Otherwise it is 200 with that user minus the password. |
| Auth.AppendKeepsUnique | backend/routes/auth.js:39-46 | Saving a user with an unused username and email under a fresh id keeps usernames, emails and ids unique. |
| Auth.UserStore.Register | backend/routes/auth.js:16-64 | 400 for a missing field, and 400 with the conflict message when the email or username is taken; in those cases no user is saved and the id counter is kept. Otherwise exactly one user is appended, with a hashed password, and the reply is 201 "User registered successfully" with the user minus the password and a 24-hour token. |
| Auth.FirstMatchDecidesMessage | backend/routes/auth.js:24-34 | In the model, where `findOne` follows store order, when the username belongs to an earlier user and the email to a later one, the message is "Username already taken". |
| PostForm.TrimAll | frontend/src/components/PostForm.js:59 | `.map(tag => tag.trim())` keeps the number of pieces. |
| PostForm.TrimAllAt | frontend/src/components/PostForm.js:59 | Piece `i` of the mapped list is piece `i`, trimmed. |
| PostForm.ParseTags | frontend/src/components/PostForm.js:58-60 | An empty field gives no tags. Otherwise each of the comma-separated pieces is trimmed, in order, giving one tag more than there are commas. Every tag is free of commas and surrounding white space. |
| PostForm.JoinTags | frontend/src/components/PostForm.js:28 | Missing tags and an empty tag list show as "". A single tag shows as itself. |
| PostForm.TrimAllHead | frontend/src/components/PostForm.js:59 | Trimming a list trims its head and then its tail. |
| PostForm.SpacedFirstPiece | frontend/src/components/PostForm.js:59 | A space before the first piece is lost once the pieces are trimmed. |
| PostForm.LeadingSpaceIgnored | frontend/src/components/PostForm.js:59 | A leading space changes none of the trimmed pieces of a split. |
| PostForm.EachPlainTag | frontend/src/components/PostForm.js:58-60 | A list whose tags are all plain satisfies the head-first form of that condition. |
| PostForm.JoinCons | frontend/src/components/PostForm.js:28 | Joining with ", " puts the first tag, a comma and a space before the rest. |
| PostForm.PlainPieceFirst | frontend/src/components/PostForm.js:59 | A plain piece before the first comma is parsed as itself, ahead of the rest. |
| PostForm.ParseJoinedCons | frontend/src/components/PostForm.js:28-59 | The round trip extends from a tail of tags to one more plain tag in front of it. |
| PostForm.ParseJoined | frontend/src/components/PostForm.js:28-59 | A non-empty list of plain tags, joined by ", ", split at commas and trimmed, is itself again. |
| PostForm.TagsRoundTrip | frontend/src/components/PostForm.js:28-60 | Loading a post with plain tags and submitting unchanged sends the same tags, unless the tags are exactly `[""]`. |
| PostForm.MissingTagsRoundTrip | frontend/src/components/PostForm.js:28-60 | A post with missing or empty tags submits no tags. |
| PostForm.SingleEmptyTagIsLost | frontend/src/components/PostForm.js:28-60 | The tag list `[""]` shows as an empty field, which submits as no tags. |
| PostForm.PostForm.constructor | frontend/src/components/PostForm.js:6-15 | The form starts with empty fields, not loading and with no error. It keeps the route's id. |
| PostForm.PostForm.BeginFetch | frontend/src/components/PostForm.js:19-23 | In edit mode the form starts loading and asks for `/posts/<id>`. |
| PostForm.PostForm.Fetched | frontend/src/components/PostForm.js:24-33 | The fetched title, content and joined tags fill the form, and loading ends. |
| PostForm.PostForm.FetchFailed | frontend/src/components/PostForm.js:30-34 | The error becomes "Failed to fetch post data" and loading ends. The fields are kept. |
| PostForm.PostForm.Change | frontend/src/components/PostForm.js:41-47 | A change event replaces just the named field. |
| PostForm.PostForm.Submit | frontend/src/components/PostForm.js:49-68 | Submitting clears the error and starts loading. It sends the trimmed title and content and the parsed tags: PUT to `/posts/<id>` exactly in edit mode, and POST to `/posts` otherwise. |
| PostForm.PostForm.Saved | frontend/src/components/PostForm.js:70-76 | After a save the form goes to `/post/<id>` with "Post updated successfully" in edit mode, or "Post created successfully" otherwise. |
| PostForm.PostForm.SaveFailed | frontend/src/components/PostForm.js:73-76 | The error becomes the server's message, or "Failed to save post" when the server sent none. Loading ends. |
| PostList.Previous | frontend/src/components/PostList.js:148 | `max(1, p - 1)` never goes below 1, stays at 1 on the first page, and otherwise steps back one page. |
| PostList.Next | frontend/src/components/PostList.js:174 | `min(totalPages, p + 1)` never passes the last page, stays there on the last page, and otherwise steps forward one page. |
| PostList.PageButtons | frontend/src/components/PostList.js:159-169 | There is one button per page, and button `i` is page `i + 1`. |
| PostList.PageButtonsAreThePages | frontend/src/components/PostList.js:159-169 | The buttons are exactly the pages `1..totalPages`, in increasing order. |
| PostList.TransitionsStayInRange | frontend/src/components/PostList.js:145-175 | From any page in `1..totalPages`, Previous, Next and every numbered button lead to a page in range, and Previous is never ahead of Next. |
| PostList.PreviousNextInverse | frontend/src/components/PostList.js:148-174 | Previous undoes Next except on the last page, and Next undoes Previous except on the first page. |
| PostList.ClientLimitIsServerDefault | frontend/src/components/PostList.js:19 | The client's `limit=5` equals the server's default limit, so the listing is the same with or without it. |
| PostList.Render | frontend/src/components/PostList.js:35-66 | Loading shows the skeleton. An error shows its message. No posts shows "No posts found.". Otherwise the posts are listed, with the pager exactly when there is more than one page. |
| PostList.PostList.constructor | frontend/src/components/PostList.js:6-10 | The list starts on page 1 with no posts, no pages, no error, and loading. |
| PostList.PostList.Fetch | frontend/src/components/PostList.js:15-19 | The effect starts loading and asks for the current page with `limit=5` and no filters. |
| PostList.PostList.Fetched | frontend/src/components/PostList.js:21-28 | The reply's posts and page count are shown, the error is cleared, and loading ends. The page is unchanged. |
| PostList.PostList.FetchFailed | frontend/src/components/PostList.js:24-28 | The error becomes "Failed to fetch posts. Please try again later." and loading ends. Everything else is kept. |
| PostList.PostList.PreviousPage | frontend/src/components/PostList.js:147-149 | The page becomes `max(1, page - 1)`, and stays in range if it was in range. |
| PostList.PostList.NextPage | frontend/src/components/PostList.js:173-175 | The page becomes `min(totalPages, page + 1)`, and stays in range if it was in range. |
| PostList.PostList.GoTo | frontend/src/components/PostList.js:159-162 | Button `k` sets the page to `k`, which is in range. |
| PostList.SevenPostsPager | frontend/src/components/PostList.js:145-175 | Seven posts at five a page give two buttons. Next from page 1 reaches page 2 and stays there, and Previous returns to page 1. |
| Scenarios.RegisterThenMe | backend/routes/auth.js:10-64 | Registering amy and then asking for the token's subject returns amy's id, username and email, with no password field. |
| Scenarios.RegisterEmailTwice | backend/routes/auth.js:24-35 | A second registration with the same email and another username is rejected with "Email already registered", and only one user is saved. |
| Scenarios.UpdateAsStrangerThenAuthor | backend/routes/posts.js:100-121 | Another user's update of a new post is refused with 403. The author's update succeeds and returns the new title. |
| Scenarios.DeleteAsStranger | backend/routes/posts.js:131-143 | Another user's delete is refused with 403, and the post stays. |

## Left out

- Search is modelled as a literal, case-insensitive substring. The route actually passes `search` to MongoDB as a regular expression, so regex metacharacters are not modelled.
- Case folding covers ASCII letters only. `Text.IsSpace` lists the ECMAScript white-space and line-terminator characters, and there is no Unicode normalisation.
- The query string is modelled as given. Query parameters arrive as strings and there is no string-to-number coercion. `List` requires a page and a limit of at least 1 when they are given. A `limit` of 0, which MongoDB treats as "no limit" while `totalPages` becomes infinite, is not modelled, and neither is any other non-numeric value. There is also no upper bound on `limit`, as in the source.
- `currentPage` is the page number as a natural number. The source echoes whatever the query string held.
- Posts created at the same instant are ordered by store order. MongoDB does not promise an order among equal `createdAt` values.
- `populate` (author username and email in replies) is left out. A post's `author` is just a user id.
- The Mongoose schemas are not part of this model: required fields, lengths, `updatedAt`, `views` and `likes`. As a result, no create or update fails validation, and the 400 replies of the create and update catch blocks are not modelled.
- A `PUT /posts/:id` body that lacks the title, the content or the tags is not modelled: the route passes the missing field on as `undefined`, which Mongoose, depending on its version, drops from the update or writes as null. `Posts.PostBody` always carries all three fields, as the post form always sends them.
- Database failures are not modelled. This covers the 500 replies, the `ValidationError` and duplicate-key (`11000`) branches of register, and concurrent registrations racing past the uniqueness check. Requests are processed one at a time.
- Ids are natural numbers handed out by a counter in each store. MongoDB ObjectIds and malformed ids are not modelled. A malformed id makes `findById` throw a `CastError`, which gives 500 on get and delete and 400 on update.
- bcrypt hashing is a record holding the password, so in the model a password matches exactly the one that was hashed. Salts and cost are not modelled. Neither is bcrypt's use of only the first 72 bytes of a password, under which two passwords sharing those bytes both pass `comparePassword`.
- JWT is a record holding the subject, issue time and expiry. Signing, the secret and the `auth` middleware are not part of this model. It is not modelled that a valid token is accepted until its expiry and rejected after it; the routes receive the caller's id directly.
- The `/test-db` route, `server.js`, the test route, and the seed and test-user scripts are not part of this model.
- Logging (`console.log`) is left out.
- On the client, the rendered markup (JSX, styles), `CreatePost.js`, `localStorage`, router navigation and the network calls are not modelled. The pages' methods return the request they would send, and take the reply as a parameter. `PostList.Render` covers only which view the list page chooses.
- React's effect scheduling is not modelled: it re-runs the list fetch whenever `page` changes, and the form's fetch when `id` changes. The caller of `PostList.PostList.Fetch` decides when it runs.
- PostForm.TagsRoundTrip: holds only for tags without commas or surrounding white space, and not for the single empty tag `[""]`, which shows as an empty field and comes back as no tags (`PostForm.SingleEmptyTagIsLost`).
- Auth.ConflictMessage: the model takes `findOne` to return the first matching user in store order. MongoDB does not promise that order when two different users match, one holding the email and the other the username; an index-driven `$or` may well yield the email holder first. For that case the model fixes one outcome: when the username belongs to an earlier user and the email to a later one, the model's reply is "Username already taken" (`Auth.FirstMatchDecidesMessage`). The program's reply there is whichever user the database returns first. When one user holds both, or only one of them is taken, the message is determined by the code and the model agrees with it. A taken email or username is always rejected.
- PostList.PostList.PreviousPage and PostList.PostList.NextPage require the pager to be visible (`totalPages > 1`), because the buttons exist only then. `Next` with `totalPages` 0 would give page 0, which the page never allows.
- PostList.PostList.Valid keeps only `page >= 1`, not `page <= totalPages`. The server's page count can change between fetches, so the source does not keep the upper bound. The transitions keep the page in range when it was in range.
