/** Tweet ids. `postTweet` numbers a new tweet `tweets.length + 1`, so ids stay distinct only
    while nothing is deleted: the seed's ids are distinct, any run of posts keeps them so,
    and one delete followed by one post produces two tweets with the same id. */
module TweetIds {
  import opened Wrappers
  import opened Sequences
  import opened Server

  /** No two tweets of `tweets` share an id. */
  predicate UniqueIds(tweets: seq<Tweet>) {
    forall i, j :: 0 <= i < j < |tweets| ==> tweets[i].id != tweets[j].id
  }

  /** The tweet at position `i` has id `i + 1`: the numbering `postTweet` gives when nothing was deleted. */
  predicate Dense(tweets: seq<Tweet>) {
    forall i :: 0 <= i < |tweets| ==> tweets[i].id == i + 1
  }

  /** Densely numbered tweets have pairwise distinct ids. */
  lemma DenseUnique(tweets: seq<Tweet>)
    requires Dense(tweets)
    ensures UniqueIds(tweets)
  {
  }

  /** The seed tweets are densely numbered, hence their ids are pairwise distinct. */
  lemma SeedIdsUnique()
    ensures Dense(SeedTweets) && UniqueIds(SeedTweets)
  {
    DenseUnique(SeedTweets);
  }

  /** A successful post onto densely numbered tweets keeps them densely numbered; a failed one changes nothing. */
  lemma PostKeepsDense(tweets: seq<Tweet>, users: seq<User>, text: string, userId: NumberId)
    requires Dense(tweets)
    ensures Dense(Post(tweets, users, text, userId).1)
  {
  }

  /** One `postTweet(text, userId)` request. */
  datatype PostRequest = PostRequest(text: string, userId: NumberId)

  /** The tweet sequence after serving `requests` in order, each as `postTweet`, with no delete between. */
  function PostAll(tweets: seq<Tweet>, users: seq<User>, requests: seq<PostRequest>): (r: seq<Tweet>)
    ensures |tweets| <= |r| <= |tweets| + |requests|
    ensures r[..|tweets|] == tweets
    decreases |requests|
  {
    if |requests| == 0 then tweets
    else
      var next := Post(tweets, users, requests[0].text, requests[0].userId).1;
      PostAll(next, users, requests[1..])
  }

  /** Any run of posts from densely numbered tweets keeps them densely numbered. */
  lemma {:induction false} PostAllKeepsDense(tweets: seq<Tweet>, users: seq<User>, requests: seq<PostRequest>)
    requires Dense(tweets)
    ensures Dense(PostAll(tweets, users, requests))
    decreases |requests|
  {
    if |requests| > 0 {
      PostKeepsDense(tweets, users, requests[0].text, requests[0].userId);
      PostAllKeepsDense(Post(tweets, users, requests[0].text, requests[0].userId).1, users, requests[1..]);
    }
  }

  /** Starting from the seed, tweet ids stay pairwise distinct for as long as only posts are served. */
  lemma SeedPostsKeepIdsUnique(users: seq<User>, requests: seq<PostRequest>)
    ensures UniqueIds(PostAll(SeedTweets, users, requests))
  {
    SeedIdsUnique();
    PostAllKeepsDense(SeedTweets, users, requests);
    DenseUnique(PostAll(SeedTweets, users, requests));
  }

  /** Deleting id 1 from densely numbered tweets leaves all the others, in order. */
  lemma DeleteFirstOfDense(tweets: seq<Tweet>)
    requires Dense(tweets) && |tweets| >= 1
    ensures Delete(tweets, Some(1)) == (true, tweets[1..])
  {
  }

  /** Id reuse: on densely numbered tweets (at least two of them), deleting id 1 and then
      posting for a known user gives the new tweet the id the last tweet already has. */
  lemma {:induction false} DeleteThenPostReusesId(tweets: seq<Tweet>, users: seq<User>, text: string, userId: NumberId)
    requires Dense(tweets) && |tweets| >= 2
    requires exists i :: 0 <= i < |users| && IdIs(users[i].id, userId)
    ensures var after := Post(Delete(tweets, Some(1)).1, users, text, userId);
      after.0.Success? && after.0.value.id == |tweets| &&
      |after.1| == |tweets| && after.1[|tweets| - 2].id == after.1[|tweets| - 1].id &&
      !UniqueIds(after.1)
  {
  }

  /** The same from the seed data: deleting tweet 1, then posting as user 1, leaves two tweets with id 3. */
  lemma SeedDeleteThenPostDuplicates(text: string)
    ensures var after := Post(Delete(SeedTweets, Some(1)).1, SeedUsers, text, Some(1));
      after.1 == [Tweet(2, "hi", 1), Tweet(3, "hello graphql", 2), Tweet(3, text, 1)] &&
      !UniqueIds(after.1)
  {
    assert IdIs(SeedUsers[0].id, Some(1));
    DeleteThenPostReusesId(SeedTweets, SeedUsers, text, Some(1));
    DeleteFirstOfDense(SeedTweets);
  }

  /** The same through the store's own mutations: a fresh store, `deleteTweet(1)`, then
      `postTweet(text, 1)`; the returned tweets hold a repeated id. */
  method DeleteThenPostOnSeed(text: string) returns (tweets: seq<Tweet>)
    ensures tweets == [Tweet(2, "hi", 1), Tweet(3, "hello graphql", 2), Tweet(3, text, 1)]
    ensures !UniqueIds(tweets)
  {
    var store := new Store();
    var deleted := store.DeleteTweet(Some(1));
    var posted := store.PostTweet(text, Some(1));
    SeedDeleteThenPostDuplicates(text);
    tweets := store.AllTweets();
  }
}
