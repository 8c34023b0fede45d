# Tweet/user store of a small GraphQL server

This project models the in-memory store behind the GraphQL resolvers of `server.js`. The store holds two ordered
arrays, `tweets` and `users`, seeded with literal data. The resolvers over them are:

- the queries `allUsers`, `allTweets` and `tweet(id)`;
- the mutations `postTweet(text, userId)` and `deleteTweet(id)`;
- the derived fields `User.fullName` and `Tweet.author`.

Files:

- `wrappers.dfy` has `Option` (the `undefined` a failed lookup gives) and `Result` (a value, or the message of a thrown error).
- `sequences.dfy` has `Find` and `Filter`. They are `Array.prototype.find` and `Array.prototype.filter` as functions on sequences.
- `server.dfy` has the `User` and `Tweet` records and the seed data. It has `Post` and `Delete`, which give the result of a
  mutation and the tweet sequence afterwards. It has the `Store` class: the two arrays are `seq` fields, the queries are
  functions and the mutations are methods that modify only `tweets`.
- `tweet_ids.dfy` covers tweet ids. They are distinct in the seed and stay distinct under any run of posts. A delete followed by a post can repeat one.

A GraphQL `ID` argument is passed through `Number(...)` before it is compared. The model takes the coerced value
as `Option<int>`: `Some(n)` for an integer, `None` for `NaN`, which equals no stored id. `Tweet.author` compares the
tweet's stored `userId` directly, with no coercion.

Tweet ids are not an invariant of the store. Each new tweet gets `tweets.length + 1` (`server.js:148`), and `deleteTweet`
shortens the array. So after a delete, a post can reuse an id still held by another tweet. From the seed, deleting tweet 1
and then posting leaves two tweets with id 3. The model keeps this numbering as written. `TweetIds.DeleteThenPostReusesId`
proves the reuse for every densely numbered store with at least two tweets, when the post is made as an existing user.
`TweetIds.SeedDeleteThenPostDuplicates` shows it on the seed. The schema declares a tweet's `id` as a GraphQL `ID`
(`server.js:47`), which suggests an identifier, but the code does not keep it unique. The model follows the code.

## Model

| member | source | states |
|---|---|---|
| `Sequences.Find` | server.js:115 | the result is absent iff no element satisfies the predicate; otherwise it is the element at the first satisfying position |
| `Sequences.Filter` | server.js:161 | keeps exactly the satisfying elements; never longer; unchanged when all satisfy; strictly shorter when one does not |
| `Sequences.FilterAppend` | server.js:161 | filtering distributes over concatenation, so relative order is kept |
| `Sequences.FilterDropsOne` | server.js:161 | when exactly one element fails the predicate, the result is exactly one shorter |
| `Server.FullName` | server.js:167-169 | `fullName` is the first name, then one space, then the last name |
| `Server.Post` | server.js:142-154 | `postTweet` fails with "Not Found Error" and no change iff no user has the coerced id; on success it appends one tweet with id old length + 1, the given text and the user's id, returns that tweet, and leaves earlier tweets as they were |
| `Server.Without` | server.js:161 | the filtered array holds no tweet with the coerced id, and it holds every old tweet with another id |
| `Server.Delete` | server.js:156-163 | `deleteTweet` returns true iff some tweet has the coerced id; on false the tweets are unchanged; afterwards the tweets are `Without(tweets, id)`: no tweet has that id, and the old tweets with other ids remain, in their original relative order |
| `Server.WithoutAppend` | server.js:161 | the filter works piece by piece over a concatenation, which fixes the survivors' relative order |
| `Server.WithoutSingle` | server.js:161 | a single tweet is dropped exactly when its id is the coerced id |
| `Server.DeleteAgain` | server.js:156-163 | a second `deleteTweet` with the same id returns false and changes nothing |
| `Server.DeleteRemovesOne` | server.js:157-162 | when ids are distinct, a successful delete removes exactly one tweet |
| `Server.SeedResolvers` | server.js:4-33 | on the seed, user 1's full name is "Kim Min Soo" and tweet 3's author is user 2. A post for user 999 throws and changes nothing. A post for user 1 appends tweet 4 |
| `Server.Store.constructor` | server.js:4-33 | the store starts with the three seed tweets and two seed users |
| `Server.Store.AllUsers` | server.js:106-108 | `allUsers` returns the current user sequence, in insertion order |
| `Server.Store.AllTweets` | server.js:110-112 | `allTweets` returns the current tweet sequence, in insertion order |
| `Server.Store.TweetById` | server.js:114-116 | `tweet(id)` returns the first tweet in store order with the coerced id, or absent iff there is none |
| `Server.Store.Author` | server.js:173-175 | `author` returns the first user whose id equals the tweet's `userId`, or absent iff there is none |
| `Server.Store.PostTweet` | server.js:142-154 | the result and the new tweets are those of `Post` on the old tweets; users are unchanged |
| `Server.Store.DeleteTweet` | server.js:156-163 | the result and the new tweets are those of `Delete` on the old tweets; users are unchanged |
| `TweetIds.DenseUnique` | server.js:4-20 | tweets numbered 1, 2, 3, … in order have pairwise distinct ids |
| `TweetIds.SeedIdsUnique` | server.js:4-20 | the seed tweets are numbered 1, 2, 3 and their ids are pairwise distinct |
| `TweetIds.PostKeepsDense` | server.js:147-152 | a post onto tweets numbered 1..n keeps them numbered 1..n(+1) |
| `TweetIds.PostAll` | server.js:142-154 | serving a run of posts only ever appends: the old tweets are a prefix, with at most one new tweet per request |
| `TweetIds.PostAllKeepsDense` | server.js:147-152 | any run of posts keeps densely numbered tweets densely numbered |
| `TweetIds.SeedPostsKeepIdsUnique` | server.js:4-20 | from the seed, ids stay pairwise distinct while only posts are served |
| `TweetIds.DeleteFirstOfDense` | server.js:156-163 | deleting id 1 from tweets numbered 1..n returns true and leaves the rest in order |
| `TweetIds.DeleteThenPostReusesId` | server.js:148-161 | on tweets numbered 1..n with n >= 2, deleting id 1 then posting for a known user gives the new tweet id n, which the last old tweet also has, so ids are no longer distinct |
| `TweetIds.SeedDeleteThenPostDuplicates` | server.js:148-161 | from the seed, deleting tweet 1 and then posting as user 1 leaves tweets 2, 3 and a new tweet 3 |
| `TweetIds.DeleteThenPostOnSeed` | server.js:142-163 | the same sequence of calls made through the store's own mutations yields the same repeated id |

## Left out

- The GraphQL schema, the Apollo server, `server.listen` and the engine's non-null checks are library plumbing (`server.js:1`, `36-100`, `179-183`).
- `allMovies` and `movie` are not modelled. They are outbound HTTP fetches with JSON decoding, swallowed errors and float fields.
- `console.log` calls are output only and are not modelled.
- `Number(...)` string parsing is not modelled. Whitespace, hexadecimal, fractions and `""` becoming 0 are abstracted into the argument, already coerced, as `Option<int>`.
- The store is one object per process. Requests are served one at a time, so no concurrency is modelled.
