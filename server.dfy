/** The in-memory tweet/user store behind the GraphQL resolvers of server.js:
    the two records, the seed data, the lookups, the two mutations and the derived fields. */
module Server {
  import opened Wrappers
  import opened Sequences

  /** A user record. `fullName` is derived at read time, not stored. */
  datatype User = User(id: int, firstName: string, lastName: string)

  /** A tweet record. `userId` refers to a user by id; nothing keeps that reference from dangling. */
  datatype Tweet = Tweet(id: int, text: string, userId: int)

  /** A GraphQL `ID` argument after `Number(...)`: `Some(n)` for an integer value,
      `None` for NaN (or any other value no stored integer id can equal). */
  type NumberId = Option<int>

  /** `stored === Number(arg)`: strict equality of a stored id with a coerced argument; NaN equals nothing. */
  predicate IdIs(stored: int, arg: NumberId) {
    arg == Some(stored)
  }

  /** The message of the error `postTweet` throws for an unknown user. */
  const NotFoundError: string := "Not Found Error"

  /** The tweets the process starts with. */
  const SeedTweets: seq<Tweet> := [Tweet(1, "hello", 1), Tweet(2, "hi", 1), Tweet(3, "hello graphql", 2)]

  /** The users the process starts with; users are never created, changed or removed. */
  const SeedUsers: seq<User> := [User(1, "Kim", "Min Soo"), User(2, "Kim", "Jin Soo")]

  /** `User.fullName`: the first name, one space, the last name. */
  function FullName(u: User): (r: string)
    ensures |r| == |u.firstName| + 1 + |u.lastName|
    ensures r[..|u.firstName|] == u.firstName
    ensures r[|u.firstName|] == ' '
    ensures r[|u.firstName| + 1..] == u.lastName
  {
    u.firstName + " " + u.lastName
  }

  /** What `postTweet(text, userId)` does to the tweet sequence `tweets`, given the users:
      the result it returns (or the error it throws) and the tweet sequence afterwards. */
  function Post(tweets: seq<Tweet>, users: seq<User>, text: string, userId: NumberId): (r: (Result<Tweet, string>, seq<Tweet>))
    ensures r.0.Failure? <==> forall i :: 0 <= i < |users| ==> !IdIs(users[i].id, userId)
    ensures r.0.Failure? ==> r.0.error == NotFoundError && r.1 == tweets
    ensures r.0.Success? ==>
      userId.Some? && r.0.value == Tweet(|tweets| + 1, text, userId.value) && r.1 == tweets + [r.0.value]
  {
    match Find(users, (u: User) => IdIs(u.id, userId))
    case None => (Failure(NotFoundError), tweets)
    case Some(user) =>
      var tweet := Tweet(|tweets| + 1, text, user.id);
      (Success(tweet), tweets + [tweet])
  }

  /** The tweets of `tweets` whose id is not `id`, in their original order. */
  function Without(tweets: seq<Tweet>, id: NumberId): (r: seq<Tweet>)
    ensures forall i :: 0 <= i < |r| ==> !IdIs(r[i].id, id) && r[i] in tweets
    ensures forall i :: 0 <= i < |tweets| && !IdIs(tweets[i].id, id) ==> tweets[i] in r
    ensures (exists i :: 0 <= i < |tweets| && IdIs(tweets[i].id, id)) ==> |r| < |tweets|
  {
    Filter(tweets, (t: Tweet) => !IdIs(t.id, id))
  }

  /** What `deleteTweet(id)` does to the tweet sequence `tweets`:
      whether a tweet was deleted, and the tweet sequence afterwards. */
  function Delete(tweets: seq<Tweet>, id: NumberId): (r: (bool, seq<Tweet>))
    ensures r.0 <==> exists i :: 0 <= i < |tweets| && IdIs(tweets[i].id, id)
    ensures !r.0 ==> r.1 == tweets
    ensures r.0 ==> |r.1| < |tweets|
    ensures forall i :: 0 <= i < |r.1| ==> !IdIs(r.1[i].id, id) && r.1[i] in tweets
    ensures forall i :: 0 <= i < |tweets| && !IdIs(tweets[i].id, id) ==> tweets[i] in r.1
    ensures r.1 == Without(tweets, id)
  {
    match Find(tweets, (t: Tweet) => IdIs(t.id, id))
    case None => (false, tweets)
    case Some(_) =>
      (true, Without(tweets, id))
  }

  /** `Without` keeps relative order: on a concatenation it works piece by piece, ... */
  lemma {:induction false} WithoutAppend(a: seq<Tweet>, b: seq<Tweet>, id: NumberId)
    ensures Without(a + b, id) == Without(a, id) + Without(b, id)
  {
    FilterAppend(a, b, (t: Tweet) => !IdIs(t.id, id));
  }

  /** ... and on one tweet it drops it exactly when its id is the coerced id. Together with
      `WithoutAppend` this fixes `Without(tweets, id)` as the tweets with other ids, in order. */
  lemma WithoutSingle(t: Tweet, id: NumberId)
    ensures Without([t], id) == if IdIs(t.id, id) then [] else [t]
  {
  }

  /** Deleting the same id a second time finds nothing: it returns false and changes nothing. */
  lemma DeleteAgain(tweets: seq<Tweet>, id: NumberId)
    ensures var after := Delete(tweets, id).1;
      Delete(after, id) == (false, after)
  {
  }

  /** When the tweets' ids are pairwise distinct, a successful delete removes exactly one tweet. */
  lemma DeleteRemovesOne(tweets: seq<Tweet>, id: NumberId)
    requires forall i, j :: 0 <= i < j < |tweets| ==> tweets[i].id != tweets[j].id
    ensures Delete(tweets, id).0 ==> |Delete(tweets, id).1| == |tweets| - 1
  {
    if Delete(tweets, id).0 {
      var k :| 0 <= k < |tweets| && IdIs(tweets[k].id, id);
      forall j | 0 <= j < |tweets| && j != k
        ensures !IdIs(tweets[j].id, id)
      {
        if j < k { assert tweets[j].id != tweets[k].id; } else { assert tweets[k].id != tweets[j].id; }
      }
      FilterDropsOne(tweets, (t: Tweet) => !IdIs(t.id, id), k);
    }
  }

  /** The resolvers on the seed data: user 1's full name, the author of tweet 3, and a post
      for an unknown user, which throws and leaves the tweets as they were. */
  lemma SeedResolvers()
    ensures FullName(SeedUsers[0]) == "Kim Min Soo"
    ensures Find(SeedUsers, (u: User) => u.id == SeedTweets[2].userId) == Some(SeedUsers[1])
    ensures Find(SeedUsers, (u: User) => u.id == 7) == None
    ensures Post(SeedTweets, SeedUsers, "x", Some(999)) == (Failure(NotFoundError), SeedTweets)
    ensures Post(SeedTweets, SeedUsers, "x", Some(1)) == (Success(Tweet(4, "x", 1)), SeedTweets + [Tweet(4, "x", 1)])
  {
  }

  /** The store: the two module-level arrays of server.js, which the resolvers read
      and the mutations replace. */
  class Store {
    var tweets: seq<Tweet>
    var users: seq<User>

    /** The store as the process starts. */
    constructor ()
      ensures tweets == SeedTweets && users == SeedUsers
    {
      tweets := SeedTweets;
      users := SeedUsers;
    }

    /** `Query.allUsers`: every user, in insertion order. */
    function AllUsers(): (r: seq<User>)
      reads this
      ensures r == users
    {
      users
    }

    /** `Query.allTweets`: every tweet, in insertion order. */
    function AllTweets(): (r: seq<Tweet>)
      reads this
      ensures r == tweets
    {
      tweets
    }

    /** `Query.tweet(id)`: the first tweet in store order with the coerced id, or absent. */
    function TweetById(id: NumberId): (r: Option<Tweet>)
      reads this
      ensures r.None? <==> forall i :: 0 <= i < |tweets| ==> !IdIs(tweets[i].id, id)
      ensures r.Some? ==>
        exists i :: 0 <= i < |tweets| && tweets[i] == r.value && IdIs(r.value.id, id) &&
          forall j :: 0 <= j < i ==> !IdIs(tweets[j].id, id)
    {
      Find(tweets, (t: Tweet) => IdIs(t.id, id))
    }

    /** `Tweet.author`: the first user whose id equals the tweet's `userId`, or absent. */
    function Author(t: Tweet): (r: Option<User>)
      reads this
      ensures r.None? <==> forall i :: 0 <= i < |users| ==> users[i].id != t.userId
      ensures r.Some? ==>
        exists i :: 0 <= i < |users| && users[i] == r.value && r.value.id == t.userId &&
          forall j :: 0 <= j < i ==> users[j].id != t.userId
    {
      Find(users, (u: User) => u.id == t.userId)
    }

    /** `Mutation.postTweet(text, userId)`: appends a tweet for a known user, or throws. */
    method PostTweet(text: string, userId: NumberId) returns (r: Result<Tweet, string>)
      modifies this`tweets
      ensures (r, tweets) == Post(old(tweets), users, text, userId)
      ensures users == old(users)
    {
      var user := Find(users, (u: User) => IdIs(u.id, userId));
      if user.None? {
        return Failure(NotFoundError);
      }
      var tweet := Tweet(|tweets| + 1, text, user.value.id);
      tweets := tweets + [tweet];
      r := Success(tweet);
    }

    /** `Mutation.deleteTweet(id)`: removes every tweet with the coerced id, reporting whether there was one. */
    method DeleteTweet(id: NumberId) returns (deleted: bool)
      modifies this`tweets
      ensures (deleted, tweets) == Delete(old(tweets), id)
      ensures users == old(users)
    {
      var tweet := Find(tweets, (t: Tweet) => IdIs(t.id, id));
      if tweet.None? {
        return false;
      }
      tweets := Without(tweets, id);
      deleted := true;
    }
  }
}
