# Emoji-only posts: router model in Dafny

A model of the server side of a small social-posting app whose posts may only
contain emoji. Two tRPC routers make up the core:

- the **posts router** (`src/server/api/routers/posts.ts`): `getAll` reads the
  100 newest posts, asks the identity provider for their authors, builds a
  blurred placeholder of each author's image and joins every post to its
  author, failing the whole feed on any missing piece; `createPosts` validates
  the content, asks a per-user rate limiter for a yes/no decision and, on yes,
  stores one post written by the caller;
- the **profile router** (`src/server/api/routers/profile.ts`):
  `getUserByUsername` looks a user up by name and returns the first match;
- the helper `filterUserFunction` (`src/server/helpers/filterUserforClient.ts`),
  which projects a user to its public fields `{id, username, imageUrl}`.

External services are parameters of the model, each allowed to fail:
the database's `findMany` (`Store.FindMany`) and the row values it assigns on
`create` (`Store.Stamp`), the identity provider's user list
(`Users.Directory`), the rate limiter's per-call decision
(`CreatePost.Limiter`), the image-to-placeholder pipeline
(`Feed.Placeholder`) and the schema library's emoji test
(`Validation.EmojiCheck`). A failure of the database, the directory or the
limiter is not caught by the routers, so it ends the call unchanged
(`Errors.ApiError.Upstream`). Content is a sequence of UTF-16 code units,
because the schema's length limits count those.

Files: `wrappers.dfy` (Option, Result), `errors.dfy` (error codes, messages,
schema issues), `users.dfy` (users, the projection, directory queries),
`store.dfy` (posts, the store's query contract), `validation.dfy` (the input
schema of `createPosts`), `feed.dfy` (`getAll`), `create_post.dfy`
(`createPosts`), `profile.dfy` (`getUserByUsername`).

Facts about the code that the model keeps:
- The feed sends every post's author id to the directory, duplicates
  included; nothing de-duplicates them.
- A placeholder is computed for every user the directory returns, and one
  failed placeholder fails the whole feed.
- The author check fails both for a post whose author is missing and for one
  whose author has an absent or empty username.
- The posts router has exactly two procedures, `getAll` and `createPosts`.
- A failure of the rate limiter is not caught: it propagates as an exception
  and no post is written.

## Model

| member | source | states |
|---|---|---|
| Errors.Forward | src/server/api/routers/posts.ts:46-59 | an external service's failure ends the call unchanged, as the un-caught awaits of the store query, the user list, the limiter (posts.ts:98), the row create (posts.ts:109) and the profile lookup (profile.ts:15) do; a success passes its value through |
| Users.FilterUser | src/server/helpers/filterUserforClient.ts:3-7 | the projection is total, keeps `id`, `username` (absent or empty included, unvalidated) and `imageUrl` of its input |
| Users.FilterUsers | src/server/api/routers/posts.ts:55-60 | the directory's answer is projected user by user: same length, same order, user i becomes the projection of user i |
| Users.FilterUserKeepsExactlyPublicFields | src/server/helpers/filterUserforClient.ts:3-7 | two users project alike exactly when they agree on the three public fields: no private field leaks, no public one is lost |
| Validation.ContentIssues | src/server/api/routers/posts.ts:91 | the schema reports the emoji issue iff the emoji test fails, the minimum issue iff the content is empty, the maximum issue iff it is longer than 200, nothing else, each at most once and in declaration order, and no issue exactly for valid content |
| Validation.ValidateContent | src/server/api/routers/posts.ts:89-93 | input is accepted, unchanged, iff its length is 1 to 200 and it passes the emoji test; otherwise it is a BAD_REQUEST rejection naming each failed check |
| CreatePost.CreatePosts | src/server/api/routers/posts.ts:88-117 | invalid content fails without consulting the limiter or changing the table; the limiter's answer is taken for the caller's id only (the outcome depends on no other key, see `CreatePost.CreateDependsOnlyOnCallersQuota`); a denial, and only a denial, fails with TOO_MANY_REQUESTS "Post limit exceeded" and leaves the table unchanged; a limiter or row-create failure ends the call with that service's own fault and no change; a post is returned iff content is valid, the caller admitted and the row stored, and then it is appended as the only change, with author the caller and the submitted content |
| CreatePost.CreateDependsOnlyOnCallersQuota | src/server/api/routers/posts.ts:95-98 | limiters that agree on the caller's id give the same outcome: no other key is charged |
| CreatePost.CreatePreservesWellFormedTable | src/server/api/routers/posts.ts:88-116 | if every stored post has schema-valid content and ids are unique, this still holds after the call, given a fresh database id |
| CreatePost.ReplayGrowthBoundedByAdmissions | src/server/api/routers/posts.ts:95-116 | over any run of calls rows are only appended, and a user's post count grows by at most the number of times the limiter admitted that user |
| Feed.AuthorsQuery | src/server/api/routers/posts.ts:55-59 | the directory is asked for the author id of every fetched post, in order and with repetitions, with a limit of 100 users |
| Feed.AuthorsQueryCoversExactlyPostAuthors | src/server/api/routers/posts.ts:55-59 | an id is in the directory query exactly when some fetched post has it as author |
| Feed.ToBase64 | src/server/api/routers/posts.ts:15-29 | the placeholder when the image pipeline yields one, otherwise PARSE_ERROR "Cannot create blur image!" whatever went wrong |
| Feed.AttachBlur | src/server/api/routers/posts.ts:62-67 | succeeds iff every user's placeholder succeeds, then keeps the length and gives user i exactly the i-th placeholder; otherwise fails with the PARSE_ERROR |
| Feed.FirstWithId | src/server/api/routers/posts.ts:70 | finds the first user with the post's author id, or reports that none has it |
| Feed.JoinPost | src/server/api/routers/posts.ts:70-84 | joins a post iff its first matching user has a non-empty username; the item keeps the post and takes that user's fields; else INTERNAL_SERVER_ERROR "Author not found!" |
| Feed.JoinPosts | src/server/api/routers/posts.ts:69-85 | succeeds iff every post has a named author, then one item per post in the same order, post fields unchanged, author id equal to the post's author id, username non-empty; one bad post fails the whole join |
| Feed.GetAll | src/server/api/routers/posts.ts:45-86 | store and directory failures pass through unchanged; any failed placeholder fails with PARSE_ERROR; on success one item per fetched post, in order, each author named and carrying its own image's placeholder |
| Feed.FeedRecoversFetchedPosts | src/server/api/routers/posts.ts:69-85 | dropping the authors from a successful feed gives back exactly the fetched posts |
| Feed.FeedBoundedAndOrdered | src/server/api/routers/posts.ts:46-53 | if the store keeps its query contract (take 100, newest first), a successful feed has at most 100 items, newest first, all from the table |
| Feed.FirstMatchAgrees | src/server/api/routers/posts.ts:70-72 | the join's first-match author check agrees with a declarative reading over the directory's answer |
| Feed.FeedSucceedsIffAuthorsNamed | src/server/api/routers/posts.ts:55-85 | with store, directory and placeholders answered, the feed succeeds iff every post's first directory match exists and has a non-empty username, else fails with "Author not found!" |
| Feed.FeedAuthorIsFirstDirectoryMatch | src/server/api/routers/posts.ts:55-83 | every feed author is the projection of the first directory user with the post's author id, with that user's own placeholder |
| Feed.JoinPostsSplits | src/server/api/routers/posts.ts:69-85 | joining a batch equals joining its halves with the first failure winning: no partial result for any batch containing a bad post |
| Profile.UsernameQuery | src/server/api/routers/profile.ts:15-17 | the query holds the one given username and nothing else; `Profile.LookupConsultsOnlyUsernameQuery` shows it is the only question the lookup asks |
| Profile.GetUserByUsername | src/server/api/routers/profile.ts:8-27 | any username is accepted; a directory failure passes through; an empty answer fails with INTERNAL_SERVER_ERROR "User not found"; otherwise the public fields of the first user |
| Profile.LookupConsultsOnlyUsernameQuery | src/server/api/routers/profile.ts:9-17 | the directory is asked only the query holding exactly the given username: directories that answer that query alike give the same result |
| Profile.FirstMatchWins | src/server/api/routers/profile.ts:15-26 | the first user of a non-empty answer decides the result; later users are ignored |

## Left out

- Pages and components (`index.tsx`, `PostView.tsx`, `PageLayout.tsx`, `_app.tsx`, `[slug].tsx`, `posts/[id].tsx`), including relative-time display: presentation only.
- `ssgHelper.ts`: wiring of the server-side helpers, no logic.
- The rate limiter's sliding window (10 requests per 10 seconds) and its atomic check-and-record: inside @upstash/ratelimit and its Redis store; the limiter is a per-call decision, and no window bound is claimed.
- The image pipeline (`fetch`, `arrayBuffer`, `getPlaiceholder`): I/O and image decoding, modelled only as an oracle that yields a placeholder or fails.
- The emoji pattern: zod's built-in pattern behind `.emoji()`; kept as a parameter.
- The identity provider's and the database's own behaviour: they are parameters; the database's ordering and cap appear only as the query contract `Store.AnswersQuery`.
- Feed.FeedBoundedAndOrdered: bounds and order are proved only under the store's query contract, since they come from the database, not the router.
- The parallel fan-out of `Promise.all`: only its all-or-nothing, index-aligned result is modelled; every failure there maps to the same error, so which one settles first does not matter.
- The authentication middleware behind `privateProcedure` (`trpc.ts`) is not part of this model; the caller's id is a parameter.
- The Prisma schema defaults that fill a new row's id and creation time: they enter as `Store.Stamp`.
- How tRPC turns an uncaught service failure into a wire error: the failure is carried as it is.
- The log line printed after the limiter answers.
- Input that is not an object with a string `content` (or `username`): zod rejects it with BAD_REQUEST and an invalid_type issue before the procedure body runs; the model's inputs are already strings.
