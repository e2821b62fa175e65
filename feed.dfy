/**
 * The read side of the post resolver: the `textSnippet` field and the
 * `posts` query. The query's SQL is modelled as a pure function over a
 * snapshot of the `post` table (its rows in storage order) and of the
 * `upvote` table.
 */
module Feed {
  import opened Common
  import opened Votes

  /** A row of the `post` table. `createdAt` is the timestamp in milliseconds. */
  datatype Post = Post(id: int, title: string, text: string, points: int, creatorId: Id, createdAt: int)

  /** A post as the feed returns it: the row plus the requesting user's vote on it. */
  datatype FeedPost = FeedPost(post: Post, voteStatus: Option<int>)

  datatype PaginatedPosts = PaginatedPosts(posts: seq<FeedPost>, hasMore: bool)

  const SnippetLength := 50
  const MaxLimit := 50

  /** The `textSnippet` field: the first 50 characters of the post's text (post.ts:40-42). */
  function TextSnippet(text: string): (r: string)
    ensures |r| == Min(SnippetLength, |text|)
    ensures r <= text
    ensures |text| <= SnippetLength ==> r == text
  {
    if |text| <= SnippetLength then text else text[..SnippetLength]
  }

  /** The page size actually used: the client's limit, capped at 50 (post.ts:62). */
  function RealLimit(limit: int): (n: int)
    ensures n <= MaxLimit && n <= limit
    ensures limit <= MaxLimit ==> n == limit
    ensures MaxLimit <= limit ==> n == MaxLimit
  {
    Min(MaxLimit, limit)
  }

  /**
   * Where a JavaScript `slice(0, end)` of a list of length `len` stops: a
   * negative `end` counts back from the end of the list (post.ts:110).
   */
  function SliceEnd(end: int, len: nat): (n: nat)
    ensures n <= len
    ensures 0 <= end ==> n == Min(end, len)
    ensures end < 0 ==> n == (if len < -end then 0 else len + end)
  {
    if end < 0 then (if len + end < 0 then 0 else len + end) else Min(end, len)
  }

  /** The query's filter: with a cursor, only rows created strictly before it (post.ts:90); no cursor keeps every row. */
  predicate BeforeCursor(p: Post, cursor: Option<int>) {
    cursor.None? || p.createdAt < cursor.value
  }

  /** The rows the `where` clause keeps, each as often as it occurs. */
  function Older(rows: seq<Post>, cursor: Option<int>): (r: seq<Post>)
    ensures forall p :: p in r <==> p in rows && BeforeCursor(p, cursor)
    ensures cursor.None? ==> r == rows
  {
    if rows == [] then []
    else
      assert rows == [rows[0]] + rows[1..];
      if BeforeCursor(rows[0], cursor) then [rows[0]] + Older(rows[1..], cursor)
      else Older(rows[1..], cursor)
  }

  /** The filter keeps every passing row exactly as often as the table holds it, and no other row. */
  lemma {:induction false} OlderCounts(rows: seq<Post>, cursor: Option<int>)
    ensures forall p :: multiset(Older(rows, cursor))[p] == if BeforeCursor(p, cursor) then multiset(rows)[p] else 0
  {
    if rows != [] {
      assert rows == [rows[0]] + rows[1..];
      OlderCounts(rows[1..], cursor);
    }
  }

  /** The query's ordering, newest first (post.ts:91): no row is newer than one before it. */
  predicate NewestFirst(s: seq<Post>) {
    forall i, j :: 0 <= i < j < |s| ==> s[j].createdAt <= s[i].createdAt
  }

  function InsertByNewest(p: Post, s: seq<Post>): (r: seq<Post>)
    requires NewestFirst(s)
    ensures NewestFirst(r)
    ensures multiset(r) == multiset(s) + multiset{p}
    ensures |r| == |s| + 1
  {
    if s == [] || s[0].createdAt <= p.createdAt then [p] + s
    else
      assert s == [s[0]] + s[1..];
      var rest := InsertByNewest(p, s[1..]);
      NoNewerThanHead(s, p, rest);
      [s[0]] + rest
  }

  /**
   * Inserting `p`, older than the head of `s`, into the tail of `s` gives
   * rows none of which is newer than that head.
   */
  lemma NoNewerThanHead(s: seq<Post>, p: Post, rest: seq<Post>)
    requires NewestFirst(s) && s != [] && p.createdAt <= s[0].createdAt
    requires multiset(rest) == multiset(s[1..]) + multiset{p}
    ensures forall j :: 0 <= j < |rest| ==> rest[j].createdAt <= s[0].createdAt
  {
    forall j | 0 <= j < |rest| ensures rest[j].createdAt <= s[0].createdAt {
      assert rest[j] in multiset(rest);
      if rest[j] != p {
        assert rest[j] in s[1..];
        var k :| 0 <= k < |s[1..]| && s[1..][k] == rest[j];
        assert s[k + 1] == rest[j];
      }
    }
  }

  /**
   * The ordering the query asks of the database. Rows with equal timestamps
   * come out in one fixed order here; the database may use any.
   */
  function SortByNewest(s: seq<Post>): (r: seq<Post>)
    ensures NewestFirst(r)
    ensures multiset(r) == multiset(s)
    ensures |r| == |s|
  {
    if s == [] then []
    else
      assert s == [s[0]] + s[1..];
      InsertByNewest(s[0], SortByNewest(s[1..]))
  }

  /** Every row of the ordered result is a table row that passes the `where` clause. */
  lemma SortedRowsQualify(rows: seq<Post>, cursor: Option<int>, sorted: seq<Post>)
    requires sorted == SortByNewest(Older(rows, cursor))
    ensures forall i :: 0 <= i < |sorted| ==> sorted[i] in rows && BeforeCursor(sorted[i], cursor)
  {
    var older := Older(rows, cursor);
    forall i | 0 <= i < |sorted| ensures sorted[i] in rows && BeforeCursor(sorted[i], cursor) {
      assert sorted[i] in multiset(sorted);
      assert sorted[i] in multiset(older);
    }
  }

  /** A prefix of a newest-first sequence is newest-first. */
  lemma PrefixNewestFirst(s: seq<Post>, n: nat)
    requires NewestFirst(s) && n <= |s|
    ensures NewestFirst(s[..n])
  {
    forall i, j | 0 <= i < j < n ensures s[..n][j].createdAt <= s[..n][i].createdAt {
      assert s[..n][i] == s[i] && s[..n][j] == s[j];
    }
  }

  /** A row left out of a prefix of a newest-first sequence is no newer than any row of the prefix. */
  lemma SuffixNoNewer(s: seq<Post>, n: nat)
    requires NewestFirst(s) && n <= |s|
    ensures forall p :: multiset(s[..n])[p] <= multiset(s)[p]
    ensures forall p, i :: multiset(s[..n])[p] < multiset(s)[p] && 0 <= i < n ==> p.createdAt <= s[..n][i].createdAt
  {
    assert s == s[..n] + s[n..];
    assert multiset(s) == multiset(s[..n]) + multiset(s[n..]);
    forall p, i | multiset(s[..n])[p] < multiset(s)[p] && 0 <= i < n
      ensures p.createdAt <= s[..n][i].createdAt
    {
      assert p in multiset(s[n..]);
      assert p in s[n..];
      var k :| 0 <= k < |s[n..]| && s[n..][k] == p;
      assert s[n + k] == p && s[..n][i] == s[i];
    }
  }

  /**
   * What the SQL statement returns: the newest `realLimit + 1` rows that
   * pass the filter (post.ts:63, 73-95), whatever order ties come in.
   */
  function Fetch(rows: seq<Post>, limit: int, cursor: Option<int>): (r: seq<Post>)
    requires -1 <= limit
    ensures |r| == Min(|Older(rows, cursor)|, RealLimit(limit) + 1)
    ensures NewestFirst(r)
    ensures forall i :: 0 <= i < |r| ==> r[i] in rows && BeforeCursor(r[i], cursor)
  {
    var sorted := SortByNewest(Older(rows, cursor));
    var n := Min(|sorted|, RealLimit(limit) + 1);
    PrefixNewestFirst(sorted, n);
    SortedRowsQualify(rows, cursor, sorted);
    assert forall i :: 0 <= i < n ==> sorted[..n][i] == sorted[i];
    sorted[..n]
  }

  /**
   * The fetch takes the newest rows, whatever order ties come in: no row is
   * fetched more often than it passes the filter, and a row that passes the
   * filter but was not fetched is no newer than any fetched row.
   */
  lemma FetchLeavesOutNoNewer(rows: seq<Post>, limit: int, cursor: Option<int>)
    requires -1 <= limit
    ensures var r := Fetch(rows, limit, cursor);
            forall p :: multiset(r)[p] <= multiset(Older(rows, cursor))[p]
    ensures var r := Fetch(rows, limit, cursor);
            forall p, i :: multiset(r)[p] < multiset(Older(rows, cursor))[p] && 0 <= i < |r| ==>
              p.createdAt <= r[i].createdAt
  {
    var sorted := SortByNewest(Older(rows, cursor));
    SuffixNoNewer(sorted, Min(|sorted|, RealLimit(limit) + 1));
  }

  /** The fetched rows are the head of the filtered rows in the model's newest-first order. */
  lemma FetchIsPrefix(rows: seq<Post>, limit: int, cursor: Option<int>)
    requires -1 <= limit
    ensures var f := Fetch(rows, limit, cursor);
            forall i :: 0 <= i < |f| ==> f[i] == SortByNewest(Older(rows, cursor))[i]
  {
  }

  /**
   * The `voteStatus` column (post.ts:83-87): with a session, the session
   * user's own stored vote on the post, or null when they have none;
   * without a session, always null.
   */
  function VoteStatus(votes: VoteTable, session: Option<Id>, postId: int): (r: Option<int>)
    ensures session.None? ==> r.None?
    ensures session.Some? && (session.value, postId) in votes ==> r == Some(votes[(session.value, postId)])
    ensures session.Some? && (session.value, postId) !in votes ==> r.None?
  {
    if session.Some? && (session.value, postId) in votes then Some(votes[(session.value, postId)]) else None
  }

  /** Adds the `voteStatus` column to each row of the page. */
  function Annotate(page: seq<Post>, session: Option<Id>, votes: VoteTable): seq<FeedPost> {
    seq(|page|, i requires 0 <= i < |page| => FeedPost(page[i], VoteStatus(votes, session, page[i].id)))
  }

  /** The rows of the page: the fetched rows cut at `realLimit` (post.ts:110), with `SliceEnd`'s reading of a negative end. */
  function PageRows(rows: seq<Post>, limit: int, cursor: Option<int>): seq<Post>
    requires -1 <= limit
  {
    var fetched := Fetch(rows, limit, cursor);
    fetched[..SliceEnd(RealLimit(limit), |fetched|)]
  }

  lemma PageRowsFacts(rows: seq<Post>, limit: int, cursor: Option<int>)
    requires -1 <= limit
    ensures var page := PageRows(rows, limit, cursor);
            && |page| == (if limit < 0 then 0 else Min(RealLimit(limit), |Older(rows, cursor)|))
            && NewestFirst(page)
            && (forall i :: 0 <= i < |page| ==> page[i] == SortByNewest(Older(rows, cursor))[i])
            && (forall i :: 0 <= i < |page| ==> page[i] in rows && BeforeCursor(page[i], cursor))
  {
    var fetched := Fetch(rows, limit, cursor);
    var page := PageRows(rows, limit, cursor);
    FetchIsPrefix(rows, limit, cursor);
    PrefixNewestFirst(fetched, |page|);
    assert fetched[..|page|] == page;
  }

  /**
   * The `posts` query (post.ts:57-113): the first `realLimit` fetched rows,
   * each annotated with its `voteStatus`, and `hasMore` when the fetch
   * filled all `realLimit + 1` places. A limit of -1 fetches nothing yet
   * reports more to come.
   */
  function Posts(rows: seq<Post>, limit: int, cursor: Option<int>, session: Option<Id>, votes: VoteTable): (r: PaginatedPosts)
    requires -1 <= limit
    ensures |r.posts| <= MaxLimit
    ensures 0 <= limit ==> |r.posts| <= RealLimit(limit)
    ensures 0 <= limit ==> |r.posts| == Min(RealLimit(limit), |Older(rows, cursor)|)
    ensures r.hasMore <==> |Fetch(rows, limit, cursor)| == RealLimit(limit) + 1
    ensures r.hasMore <==> RealLimit(limit) < |Older(rows, cursor)|
    ensures limit == -1 ==> r.posts == [] && r.hasMore
    // the page is the head of the filtered table in newest-first order
    ensures forall i :: 0 <= i < |r.posts| ==> r.posts[i].post == SortByNewest(Older(rows, cursor))[i]
    ensures forall i :: 0 <= i < |r.posts| ==> r.posts[i].post in rows
    ensures forall i :: 0 <= i < |r.posts| ==> BeforeCursor(r.posts[i].post, cursor)
    ensures forall i, j :: 0 <= i < j < |r.posts| ==> r.posts[j].post.createdAt <= r.posts[i].post.createdAt
    // a user only ever sees their own vote
    ensures session.None? ==> forall i :: 0 <= i < |r.posts| ==> r.posts[i].voteStatus.None?
    ensures forall i :: 0 <= i < |r.posts| && session.Some? ==>
              r.posts[i].voteStatus == if (session.value, r.posts[i].post.id) in votes
                                       then Some(votes[(session.value, r.posts[i].post.id)]) else None
  {
    PageRowsFacts(rows, limit, cursor);
    var page := PageRows(rows, limit, cursor);
    var annotated := Annotate(page, session, votes);
    assert |annotated| == |page| && forall i :: 0 <= i < |page| ==> annotated[i].post == page[i];
    PaginatedPosts(annotated, |Fetch(rows, limit, cursor)| == RealLimit(limit) + 1)
  }

  /**
   * The feed never leaks another user's vote: two vote tables that agree on
   * the requesting user's rows give the same page.
   */
  lemma PostsIgnoreOtherVoters(rows: seq<Post>, limit: int, cursor: Option<int>, session: Option<Id>,
                               a: VoteTable, b: VoteTable)
    requires -1 <= limit
    requires session.Some? ==> forall postId: int ::
               ((session.value, postId) in a <==> (session.value, postId) in b)
    requires session.Some? ==> forall postId: int ::
               (session.value, postId) in a && (session.value, postId) in b ==>
               a[(session.value, postId)] == b[(session.value, postId)]
    ensures Posts(rows, limit, cursor, session, a) == Posts(rows, limit, cursor, session, b)
  {
  }
}
