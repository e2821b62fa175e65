/**
 * The mutations of the post resolver over the `post` and `upvote` tables.
 * Each transaction is one atomic step; a statement the database rejects
 * (a foreign-key violation) rolls the step back and the mutation fails,
 * which the methods report as `None`.
 */
module PostResolver {
  import opened Common
  import opened Votes
  import opened Feed

  /** The points statement of `vote` (post.ts:169-171, 188-190): post `postId` gains `d` points, no other row changes. */
  function AddPoints(posts: map<int, Post>, postId: int, d: int): (r: map<int, Post>)
    requires postId in posts
    ensures r.Keys == posts.Keys
    ensures r[postId] == posts[postId].(points := posts[postId].points + d)
    ensures forall id :: id in posts && id != postId ==> r[id] == posts[id]
  {
    posts[postId := posts[postId].(points := posts[postId].points + d)]
  }

  /** The `post` and `upvote` tables and the serial that numbers new posts. */
  class ContentStore {
    var posts: map<int, Post>
    var votes: VoteTable
    var nextId: Id

    /** Keys match ids, the serial is ahead of every id, votes are ±1 and refer to stored posts. */
    ghost predicate Valid()
      reads this
    {
      && (forall id :: id in posts ==> posts[id].id == id && id < nextId)
      && (forall k :: k in votes ==> k.1 in posts)
      && (forall k :: k in votes ==> votes[k] == 1 || votes[k] == -1)
    }

    /** The cached `points` of every post equals the sum of its stored votes. */
    ghost predicate PointsMatchVotes()
      reads this
    {
      forall id :: id in posts ==> posts[id].points == Tally(votes, id)
    }

    constructor ()
      ensures Valid() && PointsMatchVotes()
      ensures posts == map[] && votes == map[] && nextId == 1
    {
      posts, votes, nextId := map[], map[], 1;
    }

    /**
     * `vote(postId, value)` for the session user `userId`. `vote` reads the
     * session's user id without checking that one is set.
     * Results: Some(true) for an insert or a flip, Some(false) for a repeated
     * vote, None when the insert violates the foreign key to `post`.
     */
    method Vote(userId: Id, postId: int, value: int) returns (r: Option<bool>)
      requires Valid()
      modifies this
      ensures Valid() && nextId == old(nextId)
      ensures var v, key := Normalize(value), (userId, postId);
              if key in old(votes) && old(votes)[key] == v then
                // same sign again: nothing happens
                r == Some(false) && votes == old(votes) && posts == old(posts)
              else if key in old(votes) then
                // opposite sign: every vote on the post is rewritten, points move by 2v
                && r == Some(true)
                && postId in old(posts)
                && votes == SetPostVotes(old(votes), postId, v)
                && posts == AddPoints(old(posts), postId, 2 * v)
              else if postId in old(posts) then
                // first vote: one new row, points move by v
                && r == Some(true)
                && votes == old(votes)[key := v]
                && posts == AddPoints(old(posts), postId, v)
              else
                r == None && votes == old(votes) && posts == old(posts)
      // the cache stays right on inserts, and on flips by the post's only voter
      ensures old(PointsMatchVotes()) && ((userId, postId) !in old(votes) || SoleVoter(old(votes), userId, postId))
              ==> PointsMatchVotes()
    {
      var v := Normalize(value);
      var key := (userId, postId);
      if key in votes && votes[key] != v {
        ghost var was := votes;
        votes := SetPostVotes(votes, postId, v);
        posts := AddPoints(posts, postId, 2 * v);
        if old(PointsMatchVotes()) && SoleVoter(was, userId, postId) {
          forall id | id in posts ensures posts[id].points == Tally(votes, id) {
            if id == postId {
              FlipSoleVoter(was, userId, postId, v);
            } else {
              FlipOtherPosts(was, postId, v, id);
            }
          }
        }
        r := Some(true);
      } else if key !in votes {
        if postId in posts {
          ghost var was := votes;
          votes := votes[key := v];
          posts := AddPoints(posts, postId, v);
          forall id | id in posts && old(PointsMatchVotes()) ensures posts[id].points == Tally(votes, id) {
            TallyInsert(was, key, v, id);
          }
          r := Some(true);
        } else {
          r := None;
        }
      } else {
        r := Some(false);
      }
    }

    /**
     * `createPost`: without a session user the mutation throws and nothing
     * is stored; otherwise a new row with 0 points, numbered by the serial
     * and stamped with `now`.
     */
    method CreatePost(session: Option<Id>, title: string, text: string, now: int) returns (r: Option<Post>)
      requires Valid()
      modifies this
      ensures Valid() && votes == old(votes)
      ensures session.None? ==> r.None? && posts == old(posts) && nextId == old(nextId)
      ensures session.Some? ==>
                && r == Some(Post(old(nextId), title, text, 0, session.value, now))
                && old(nextId) !in old(posts)
                && posts == old(posts)[old(nextId) := r.value]
                && nextId == old(nextId) + 1
      ensures old(PointsMatchVotes()) ==> PointsMatchVotes()
    {
      if session.None? {
        return None;
      }
      var post := Post(nextId, title, text, 0, session.value, now);
      TallyNoVotes(votes, nextId);
      posts := posts[nextId := post];
      nextId := nextId + 1;
      r := Some(post);
    }

    /**
     * `updatePost(id, title)`: a missing post gives null; otherwise the title
     * is replaced when one was supplied, and the row as it was BEFORE the
     * update is returned.
     */
    method UpdatePost(id: int, title: Option<string>) returns (r: Option<Post>)
      requires Valid()
      modifies this
      ensures Valid() && votes == old(votes) && nextId == old(nextId)
      ensures id !in old(posts) ==> r.None? && posts == old(posts)
      ensures id in old(posts) ==>
                && r == Some(old(posts)[id])
                && posts == if title.Some? then old(posts)[id := old(posts)[id].(title := title.value)] else old(posts)
      ensures old(PointsMatchVotes()) ==> PointsMatchVotes()
    {
      if id !in posts {
        return None;
      }
      r := Some(posts[id]);
      if title.Some? {
        posts := posts[id := posts[id].(title := title.value)];
      }
    }

    /**
     * `deletePost(id)`: true whether or not the row existed, but the delete
     * is refused (the mutation throws) while votes still refer to the post,
     * since the foreign key from `upvote` has no cascade.
     */
    method DeletePost(id: int) returns (r: Option<bool>)
      requires Valid()
      modifies this
      ensures Valid() && votes == old(votes) && nextId == old(nextId)
      ensures (exists k :: k in old(votes) && k.1 == id) ==> r.None? && posts == old(posts)
      ensures (forall k :: k in old(votes) ==> k.1 != id) ==> r == Some(true) && posts == old(posts) - {id}
      ensures old(PointsMatchVotes()) ==> PointsMatchVotes()
    {
      if exists k :: k in votes && k.1 == id {
        return None;
      }
      posts := posts - {id};
      r := Some(true);
    }
  }

  /** Voting the same way twice: the second call changes nothing and says so. */
  method RepeatedVoteIsNoOp(store: ContentStore, userId: Id, postId: int, value: int)
    returns (first: Option<bool>, second: Option<bool>)
    requires store.Valid() && postId in store.posts
    modifies store
    ensures first == Some(true) || first == Some(false)
    ensures second == Some(false)
    // the pair leaves the store exactly as the first call alone would
    ensures var v, key := Normalize(value), (userId, postId);
            if key in old(store.votes) && old(store.votes)[key] == v then
              store.votes == old(store.votes) && store.posts == old(store.posts)
            else if key in old(store.votes) then
              && store.votes == SetPostVotes(old(store.votes), postId, v)
              && store.posts == AddPoints(old(store.posts), postId, 2 * v)
            else
              && store.votes == old(store.votes)[key := v]
              && store.posts == AddPoints(old(store.posts), postId, v)
  {
    first := store.Vote(userId, postId, value);
    ghost var votes, posts := store.votes, store.posts;
    second := store.Vote(userId, postId, value);
    assert store.votes == votes && store.posts == posts;
  }

  /** An upvote followed by a downvote from the post's first voter: one row of -1, net points -1. */
  method UpThenDown(store: ContentStore, userId: Id, postId: int)
    returns (up: Option<bool>, down: Option<bool>)
    requires store.Valid() && store.PointsMatchVotes() && postId in store.posts
    requires forall k :: k in store.votes ==> k.1 != postId
    modifies store
    ensures up == Some(true) && down == Some(true)
    ensures (userId, postId) in store.votes && postId in store.posts
    ensures store.votes[(userId, postId)] == -1 && SoleVoter(store.votes, userId, postId)
    ensures store.posts[postId].points == old(store.posts[postId].points) - 1
    ensures store.PointsMatchVotes()
  {
    up := store.Vote(userId, postId, 1);
    assert SoleVoter(store.votes, userId, postId);
    down := store.Vote(userId, postId, -1);
  }
}
