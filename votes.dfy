/**
 * The `upvote` table as a value: a map from the composite primary key
 * (userId, postId) to the stored vote value, and the statements `vote`
 * runs against it. `Tally` is the sum of the stored values for one post,
 * the quantity `post.points` is meant to cache.
 */
module Votes {

  /** (userId, postId) |-> value; the key is the table's composite primary key. */
  type VoteTable = map<(int, int), int>

  /** The stored value of a vote (post.ts:151-152): -1 stays a downvote, every other input is an upvote. */
  function Normalize(value: int): (v: int)
    ensures v == 1 || v == -1
    ensures v == -1 <==> value == -1
    ensures value == 1 || value == -1 ==> v == value
  {
    if value != -1 then 1 else -1
  }

  /**
   * The flip statement (post.ts:161-165): it sets the value of the post's
   * vote rows and has no condition on the user, so it rewrites every
   * user's vote on the post, not only the caller's.
   */
  function SetPostVotes(votes: VoteTable, postId: int, v: int): (r: VoteTable)
    ensures r.Keys == votes.Keys
    ensures forall k :: k in r && k.1 == postId ==> r[k] == v
    ensures forall k :: k in r && k.1 != postId ==> r[k] == votes[k]
  {
    map k | k in votes :: if k.1 == postId then v else votes[k]
  }

  /** What row `k` adds to the total of post `p`. */
  function Share(votes: VoteTable, k: (int, int), p: int): int
    requires k in votes
  {
    if k.1 == p then votes[k] else 0
  }

  /** Sum of the stored vote values of post `p`. */
  ghost function Tally(votes: VoteTable, p: int): int
    decreases |votes|
  {
    if votes == map[] then 0
    else
      var k :| k in votes;
      assert |votes - {k}| < |votes| by { assert (votes - {k}).Keys == votes.Keys - {k}; }
      Share(votes, k, p) + Tally(votes - {k}, p)
  }

  /** The only votes stored for post `p` are `userId`'s (at most one, by the key). */
  predicate SoleVoter(votes: VoteTable, userId: int, p: int) {
    forall k :: k in votes && k.1 == p ==> k.0 == userId
  }

  lemma RemoveShrinks(votes: VoteTable, k: (int, int))
    requires k in votes
    ensures |votes - {k}| == |votes| - 1
  {
  }

  /** The total does not depend on which row `Tally` happens to pick first. */
  lemma {:induction false} TallyRemove(votes: VoteTable, p: int, k: (int, int))
    requires k in votes
    ensures Tally(votes, p) == Share(votes, k, p) + Tally(votes - {k}, p)
    decreases |votes|
  {
    var j :| j in votes && Tally(votes, p) == Share(votes, j, p) + Tally(votes - {j}, p);
    if j != k {
      var rest := votes - {j} - {k};
      assert votes - {k} - {j} == rest;
      RemoveShrinks(votes, j);
      RemoveShrinks(votes, k);
      TallyRemove(votes - {j}, p, k);
      TallyRemove(votes - {k}, p, j);
      assert Share(votes - {j}, k, p) == Share(votes, k, p);
      assert Share(votes - {k}, j, p) == Share(votes, j, p);
      assert Tally(votes - {j}, p) == Share(votes, k, p) + Tally(rest, p);
      assert Tally(votes - {k}, p) == Share(votes, j, p) + Tally(rest, p);
    }
  }

  /** A post nobody voted on has total 0. */
  lemma {:induction false} TallyNoVotes(votes: VoteTable, p: int)
    requires forall k :: k in votes ==> k.1 != p
    ensures Tally(votes, p) == 0
    decreases |votes|
  {
    if votes != map[] {
      var k :| k in votes;
      TallyRemove(votes, p, k);
      RemoveShrinks(votes, k);
      TallyNoVotes(votes - {k}, p);
    }
  }

  /** Inserting a fresh row adds its value to its own post's total and to no other. */
  lemma TallyInsert(votes: VoteTable, key: (int, int), v: int, p: int)
    requires key !in votes
    ensures Tally(votes[key := v], p) == Tally(votes, p) + (if key.1 == p then v else 0)
  {
    TallyRemove(votes[key := v], p, key);
    assert votes[key := v] - {key} == votes;
  }

  /** The total of post `p` only looks at the rows of post `p`. */
  lemma {:induction false} TallyLocal(a: VoteTable, b: VoteTable, p: int)
    requires a.Keys == b.Keys
    requires forall k :: k in a && k.1 == p ==> a[k] == b[k]
    ensures Tally(a, p) == Tally(b, p)
    decreases |a|
  {
    if a != map[] {
      var k :| k in a;
      TallyRemove(a, p, k);
      TallyRemove(b, p, k);
      RemoveShrinks(a, k);
      TallyLocal(a - {k}, b - {k}, p);
    }
  }

  /** With one voter on `p`, the post's total is that voter's value. */
  lemma TallySoleVoter(votes: VoteTable, userId: int, p: int)
    requires (userId, p) in votes && SoleVoter(votes, userId, p)
    ensures Tally(votes, p) == votes[(userId, p)]
  {
    TallyRemove(votes, p, (userId, p));
    TallyNoVotes(votes - {(userId, p)}, p);
  }

  /** The flip of post `p` leaves every other post's total alone. */
  lemma FlipOtherPosts(votes: VoteTable, p: int, v: int, q: int)
    requires q != p
    ensures Tally(SetPostVotes(votes, p, v), q) == Tally(votes, q)
  {
    TallyLocal(SetPostVotes(votes, p, v), votes, q);
  }

  /**
   * For a sole voter, the flip moves the post's total from the old value to
   * the new one, which for opposite signs is a change of exactly `2 * v`.
   */
  lemma FlipSoleVoter(votes: VoteTable, userId: int, p: int, v: int)
    requires (userId, p) in votes && SoleVoter(votes, userId, p)
    ensures Tally(SetPostVotes(votes, p, v), p) == Tally(votes, p) - votes[(userId, p)] + v
    ensures votes[(userId, p)] == -v ==> Tally(SetPostVotes(votes, p, v), p) == Tally(votes, p) + 2 * v
  {
    var flipped := SetPostVotes(votes, p, v);
    assert SoleVoter(flipped, userId, p);
    TallySoleVoter(votes, userId, p);
    TallySoleVoter(flipped, userId, p);
  }

  /**
   * With a second voter the flip breaks the cache: users 1 and 2 have both
   * upvoted post 7 (total 2, points 2); user 1 then downvotes. The flip sets
   * both rows to -1, so the total becomes -2, while points becomes 2 - 2 = 0.
   */
  lemma FlipWithTwoVotersBreaksPoints()
    ensures var before := map[(1, 7) := 1, (2, 7) := 1];
            var after := SetPostVotes(before, 7, -1);
            && Tally(before, 7) == 2
            && after == map[(1, 7) := -1, (2, 7) := -1]
            && Tally(after, 7) == -2
            && Tally(after, 7) != Tally(before, 7) + 2 * -1
  {
    var before := map[(1, 7) := 1, (2, 7) := 1];
    var after := SetPostVotes(before, 7, -1);
    assert after == map[(1, 7) := -1, (2, 7) := -1];
    TallyRemove(before, 7, (1, 7));
    assert before - {(1, 7)} == map[(2, 7) := 1];
    TallySoleVoter(map[(2, 7) := 1], 2, 7);
    TallyRemove(after, 7, (1, 7));
    assert after - {(1, 7)} == map[(2, 7) := -1];
    TallySoleVoter(map[(2, 7) := -1], 2, 7);
  }
}
