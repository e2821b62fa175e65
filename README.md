# lireddit-server: posts, votes and accounts in Dafny

This project models the request logic of a small forum backend: posts,
up/down votes and user accounts, behind a GraphQL API over a relational
database and a key-value session store. The model covers three areas:

- **Vote aggregator** (`vote`). It records a user's ±1 vote on a post and
  keeps the post's cached `points` up to date.
- **Feed** (`posts`, `textSnippet`). This is the cursor-paginated,
  newest-first list of posts. Each post is annotated with the requesting
  user's own vote.
- **Account flows** (`register`, `login`, `forgotPassword`,
  `changePassword`, the `email` field) and their validators.

The database tables are Dafny maps:

- `post`: id to row.
- `upvote`: the composite key `(userId, postId)` to the vote value.
- `user`: id to row.
- the password-reset entries of the key-value store: token to user id.

`request.session.userId` is an `Option<Id>`. Each transaction is one atomic
step. When the foreign key from `upvote` to `post` refuses a statement,
`Vote` and `DeletePost` leave the tables unchanged and return `None`. When
`register`'s insert fails on a unique column, `Register` returns the
`username is already taken` error, and the serial value it drew stays used.

Modules, one per source file or component:

- `Common`: `Option`, and `Id`, a positive integer, because serial ids start at 1.
- `Validator`: `src/utils/validator.ts`.
- `Votes`: the vote table as a value, and `Tally`, the sum of a post's stored votes, with lemmas about it.
- `Feed`: the read side of `src/resolvers/post.ts`, as pure functions.
- `PostResolver`: class `ContentStore`, which holds the post and vote tables and the mutations that change them, in place.
- `UserResolver`: class `AccountStore`, which holds the user table, the session and the reset tokens.

The model follows the code as written, including these points:

- The vote flip (src/resolvers/post.ts:159-166) updates the vote rows of the
  post with no condition on the user. So it rewrites EVERY user's vote on that
  post, not just the caller's.
- As a result, "points equals the sum of the post's votes" is not kept in
  general. It is proved for inserts always, and for flips when the caller is
  the post's only voter. `Votes.FlipWithTwoVotersBreaksPoints` shows a case
  that breaks it:
  1. Two users upvote post 7.
  2. One of them downvotes.
  3. Both rows become -1, so the vote sum is -2, but `points` becomes 0.
- `updatePost` and `deletePost` check neither authentication nor ownership.
  `vote` uses the session user id without checking that one is set.
- A duplicate email, like a duplicate username, makes the insert fail with
  code 23505. Both are reported as `username is already taken`.

## Model

| member | source | states |
|---|---|---|
| `Validator.ValidateRegister` | src/utils/validator.ts:3-38 | No error iff the username has at least 6 characters and no `@`, the email contains `@`, and the password has at least 4 characters. Otherwise exactly one error, blaming the first broken rule in the order username length, `@` in username, `@` in email, password length. The field is one of `username`, `email`, `password`. Each rule's error is exactly its own message: too-short username, `@` in the username, invalid email, too-short password. |
| `Validator.ValidateChangePassword` | src/utils/validator.ts:40-50 | No error iff the new password has at least 4 characters. Otherwise the single `newPassword` error. |
| `Votes.Normalize` | src/resolvers/post.ts:151-152 | The normalised vote is always +1 or -1. It is -1 exactly when the input is -1, and ±1 inputs are kept as they are. |
| `Votes.SetPostVotes` | src/resolvers/post.ts:161-165 | The flip keeps the set of vote rows. Every row of the post, whoever cast it, gets the new value, and rows of other posts keep theirs. Its effect on vote sums is stated by `Votes.FlipOtherPosts`, `Votes.FlipSoleVoter` and `Votes.FlipWithTwoVotersBreaksPoints`. |
| `Votes.TallyInsert` | src/resolvers/post.ts:178-194 | Inserting a fresh `(userId, postId)` row adds its value to that post's vote sum and changes no other post's sum. |
| `Votes.FlipOtherPosts` | src/resolvers/post.ts:158-175 | The flip statement of one post leaves every other post's vote sum unchanged. |
| `Votes.FlipSoleVoter` | src/resolvers/post.ts:158-175 | When the caller is the post's only voter, the flip replaces their value in the sum. For an opposite sign this moves the sum by exactly `2 * v`, the amount the second statement adds to `points`. |
| `Votes.FlipWithTwoVotersBreaksPoints` | src/resolvers/post.ts:161-165 | With two voters, the flip that ignores `userId` rewrites both rows. Afterwards the post's vote sum no longer equals its `points`. |
| `Feed.TextSnippet` | src/resolvers/post.ts:40-42 | The snippet is the prefix of the text of length `min(50, length)`. A text of at most 50 characters is returned unchanged. |
| `Feed.RealLimit` | src/resolvers/post.ts:62 | The page size is at most 50 and at most the requested limit. It equals the limit up to 50 and is 50 above it. `Feed.Posts` bounds the page by it. |
| `Feed.SliceEnd` | src/resolvers/post.ts:110 | Where a list `slice(0, end)` stops: never past the length, and at `min(end, length)` for a non-negative end. A negative end counts back from the length, stopping at 0. |
| `Feed.Older` | src/resolvers/post.ts:90 | Keeps exactly the rows with `createdAt` strictly below the cursor, each as often as in the table (with `Feed.OlderCounts`). Without a cursor it keeps the table unchanged. |
| `Feed.OlderCounts` | src/resolvers/post.ts:90 | Each row occurs in the filtered rows as often as in the table when it is older than the cursor, and not at all otherwise. |
| `Feed.SortByNewest` | src/resolvers/post.ts:91 | The result is in non-increasing `createdAt` order and is a permutation of the input. |
| `Feed.Fetch` | src/resolvers/post.ts:62-95 | The query returns `min(realLimit + 1, n)` rows, where `n` is the number of rows older than the cursor. They are in non-increasing `createdAt` order, and each of them is a table row older than the cursor. |
| `Feed.FetchLeavesOutNoNewer` | src/resolvers/post.ts:90-92 | The fetched rows are the newest ones: no row is fetched more often than it passes the filter, and every filtered row that was left out is no newer than any fetched row. |
| `Feed.PageRowsFacts` | src/resolvers/post.ts:110 | The page cut from the fetch has `min(50, limit, n)` rows for `limit >= 0` and none for -1. It is the head of the filtered, newest-first table, and every row on it is a table row older than the cursor. |
| `Feed.VoteStatus` | src/resolvers/post.ts:83-87 | Without a session the vote status is null. With one, it is the session user's stored vote on the post, or null when they have none. `Feed.PostsIgnoreOtherVoters` builds on it. |
| `Feed.Posts` | src/resolvers/post.ts:57-113 | At most 50 posts. For `limit >= 0` exactly `min(50, limit, n)` posts, `n` being the number of rows older than the cursor. A limit of -1 gives no posts and `hasMore` true. The posts form a prefix of the filtered, newest-first table. Every returned post is a table row older than the cursor, in non-increasing `createdAt` order. `hasMore` is true iff the fetch returned `realLimit + 1` rows, iff more than `realLimit` rows pass the filter. `voteStatus` is null for everyone without a session, and otherwise is the requesting user's own vote. |
| `Feed.PostsIgnoreOtherVoters` | src/resolvers/post.ts:83-87 | The page does not depend on other users' votes. Two vote tables that agree on the requesting user's rows give the same result. |
| `PostResolver.AddPoints` | src/resolvers/post.ts:167-193 | The points statements (lines 169-171 and 188-190) add `d` to the points of one post and leave every other row, and the set of posts, unchanged. `PostResolver.ContentStore.Vote` uses it to keep the points equal to the vote sum. |
| `PostResolver.ContentStore.Vote` | src/resolvers/post.ts:145-199 | Same sign again: false, nothing changes. Opposite sign: true, every vote row of the post is set to the new value (any user), and the post's points grow by `2 * v`. No vote yet: true, the row `(userId, postId, v)` is added, and only that post's points grow by `v`. No vote and no such post: the foreign key refuses the insert and nothing changes. Keeps `points == vote sum` on inserts, and on flips by the post's only voter. |
| `PostResolver.ContentStore.CreatePost` | src/resolvers/post.ts:44-54 | Without a session user it fails and stores nothing. Otherwise it stores and returns a new row: the next serial id, 0 points, creator = session user. No other post changes and the points invariant is kept. |
| `PostResolver.ContentStore.UpdatePost` | src/resolvers/post.ts:122-137 | A missing id gives null and no change. Otherwise only that post's title changes, and only when a title was supplied. The row as it was before the update is returned. |
| `PostResolver.ContentStore.DeletePost` | src/resolvers/post.ts:139-143 | Returns true and removes the row, or does nothing if the id is absent. While votes refer to the post, the foreign key refuses the delete and nothing changes. |
| `PostResolver.RepeatedVoteIsNoOp` | src/resolvers/post.ts:157-198 | The second of two identical votes on an existing post returns false and changes nothing: the store ends as the first vote alone leaves it (unchanged for a repeat of the stored vote, the flip of the post's rows with points moved by `2 * v`, or the new row with points moved by `v`). |
| `PostResolver.UpThenDown` | src/resolvers/post.ts:157-195 | On a post without votes, an upvote then a downvote by the same user both return true. They leave one row of -1, net points of -1, and the points invariant intact. |
| `UserResolver.AccountStore.Email` | src/resolvers/user.ts:41-48 | The `email` field is the user's email iff the session user is that user. Otherwise it is `""`. |
| `UserResolver.AccountStore.FindLogin` | src/resolvers/user.ts:97-101 | Finds the user whose email (identifier contains `@`) or username (otherwise) equals the identifier. None iff there is no such user. |
| `UserResolver.AccountStore.FindByEmail` | src/resolvers/user.ts:156 | Finds the user with that email. None iff there is none. |
| `UserResolver.AccountStore.Register` | src/resolvers/user.ts:49-89 | Validation errors are returned before any insert or session change. A taken username or email gives the single error `username is already taken`, with users and session untouched. The failed insert still uses up the next serial id. Otherwise it inserts the user with the hashed password under the next id, signs them in, and returns them. |
| `UserResolver.AccountStore.Login` | src/resolvers/user.ts:91-127 | No matching user gives the `usernameOrEmail` error. A matching user with the wrong password gives the `password` error. Otherwise it returns the user and signs them in. The session changes only on success, and nothing else is modified. |
| `UserResolver.AccountStore.ForgotPassword` | src/resolvers/user.ts:151-173 | Always true. It stores the token mapping to the user's id only when a user with that email exists, and otherwise changes nothing. |
| `UserResolver.AccountStore.ChangePassword` | src/resolvers/user.ts:175-217 | Checks in order: the length rule, token lookup (`token is invalid or expired`), user lookup (`user no longer exists`). Every failure leaves users, tokens and session unchanged. On success: only that user's password hash changes, the token is deleted, the user is signed in, and the row read before the update is returned. |
| `UserResolver.RegisterThenLogin` | src/resolvers/user.ts:49-127 | A successful registration followed by a login with the same username and password succeeds, for the same user. |
| `UserResolver.TokenIsSingleUse` | src/resolvers/user.ts:183-210 | A reset token works once. The second `changePassword` with the same token gets `token is invalid or expired`. |

## Left out

- `me`, `logout` and `post(id)`: `me` and `post(id)` are single-row lookups, and `logout` is the session framework's destroy callback.
- Server bootstrap, middleware, cookie and session configuration, and the ORM configuration: wiring with no logic.
- Of the `upvote` entity, the model keeps the key shape `(userId, postId)` of the vote table and the foreign key from `upvote.postId` to `post`, which `Vote` and `DeletePost` enforce. The foreign keys from `upvote.userId` and `post.creatorId` to `user` are not modelled, because the user table lives in a separate class from the post and vote tables. `CreatePost` therefore stores a post for any session user id.
- Timestamp columns other than `post.createdAt` are not modelled: `post.updatedAt`, and `user.createdAt` and `user.updatedAt`, which the feed's creator embedding selects. Any change an update makes to them is not modelled either.
- The `isAuth` middleware is not part of this model. `CreatePost` models only the resolver's own session check.
- argon2: hashing is the `hash` function given to `AccountStore`, and verification is `stored == hash(password)`. This ignores salting.
- The reset token generator is replaced by a `token` parameter, and the creation time of a new post by a `now` parameter.
- The reset token's time-to-live and expiry, and the reset email, are not modelled: they are clock and I/O.
- The SQL is modelled by what it computes, not by its text. The `json_build_object` creator embedding and the inner join on the creator are left out. In the database the `post.creatorId` foreign key makes the join keep every post; the model assumes this without enforcing it.
- The cursor is an `Option<int>` of milliseconds, with no `parseInt` or `Date` conversion. An empty cursor string is treated as no cursor, matching `if (cursor)`.
- `Feed.Posts`: requires `limit >= -1`. A limit of -1 asks for `LIMIT 0` and is modelled. A limit of -2 or lower asks for a negative `LIMIT`, which the database refuses with an error; that error is not modelled.
- `Feed.SortByNewest`: posts with equal `createdAt` come out in one fixed order. The database may return them in any order.
- `PostResolver.ContentStore.UpdatePost`: a title passed explicitly as null is not distinguished from a missing title.
- `UserResolver.AccountStore.Register`: an insert error other than code 23505 is not modelled. The source would then crash at `user.id`.
- Concurrency is not modelled: transaction isolation, concurrent votes, and concurrent `register` calls racing on the same username. Each transaction is one atomic step.
- String lengths count Dafny characters. JavaScript counts UTF-16 code units, so the two differ for characters outside the Basic Multilingual Plane.
- 32-bit GraphQL `Int` bounds on `limit`, `postId` and `value` are not modelled; integers are unbounded.
- `PostResolver.ContentStore.UpdatePost`, `PostResolver.ContentStore.DeletePost`: the `id` argument is declared without a GraphQL type, so the API takes it as a `Float`. The model's id is an integer, so a fractional id is not modelled.
