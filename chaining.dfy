/**
 * Following cursors across separate listing calls. Each call collects the store again in
 * Go's unordered map iteration and sorts again, so two calls may order entries with equal
 * timestamps differently: every call's order is only known to be one that the listing's
 * contract allows. When no two listed entries share an instant that order is forced and
 * chaining visits everything; with a tie a chain can skip an entry.
 */
module Chaining {
  import opened Types
  import opened Timestamps
  import opened Paging
  import Listing

  // ------------------------------------------------------- unique orders

  /** The first elements agree: each is in the other sequence, so neither rank can exceed the other. */
  lemma HeadsAgree<T>(s1: seq<T>, s2: seq<T>, rank: T -> int)
    requires s1 != [] && multiset(s1) == multiset(s2)
    requires Listing.SortedBy(s1, rank) && Listing.SortedBy(s2, rank)
    requires forall x, y :: x in s1 && y in s1 && x != y ==> rank(x) != rank(y)
    ensures s2 != [] && s1[0] == s2[0]
  {
    assert s1[0] in multiset(s2);
    var m :| 0 <= m < |s2| && s2[m] == s1[0];
    assert s2[0] in multiset(s1);
    var k :| 0 <= k < |s1| && s1[k] == s2[0];
    assert rank(s1[0]) <= rank(s1[k]) by {
      if k > 0 { assert 0 < k < |s1|; }
    }
    assert rank(s2[0]) <= rank(s2[m]) by {
      if m > 0 { assert 0 < m < |s2|; }
    }
  }

  /** Dropping the first element keeps the order and takes that element out of the multiset. */
  lemma TailSorted<T>(s: seq<T>, rank: T -> int)
    requires s != [] && Listing.SortedBy(s, rank)
    ensures Listing.SortedBy(s[1..], rank)
    ensures s == [s[0]] + s[1..]
    ensures multiset(s[1..]) == multiset(s) - multiset{s[0]}
  {
    assert s == [s[0]] + s[1..];
  }

  /** Dropping the first element keeps ranks distinct. */
  lemma TailDistinct<T>(s: seq<T>, rank: T -> int)
    requires s != []
    requires forall x, y :: x in s && y in s && x != y ==> rank(x) != rank(y)
    ensures forall x, y :: x in s[1..] && y in s[1..] && x != y ==> rank(x) != rank(y)
  {
    assert forall x :: x in s[1..] ==> x in s;
  }

  /** Two arrangements of one multiset, both ascending in a rank that tells distinct elements apart, are equal. */
  lemma {:induction false} RankedUnique<T>(s1: seq<T>, s2: seq<T>, rank: T -> int)
    requires multiset(s1) == multiset(s2)
    requires Listing.SortedBy(s1, rank) && Listing.SortedBy(s2, rank)
    requires forall x, y :: x in s1 && y in s1 && x != y ==> rank(x) != rank(y)
    ensures s1 == s2
    decreases |s1|
  {
    if s1 == [] {
      assert |s2| == |multiset(s2)| == 0;
    } else {
      HeadsAgree(s1, s2, rank);
      TailSorted(s1, rank);
      TailSorted(s2, rank);
      TailDistinct(s1, rank);
      RankedUnique(s1[1..], s2[1..], rank);
    }
  }

  /** No two different entries of `S` have the same instant. */
  ghost predicate DistinctPostTimes(S: set<Post>, parse: Parser) {
    forall p, q :: p in S && q in S && p != q ==> Key(parse, p.createdAt) != Key(parse, q.createdAt)
  }

  ghost predicate DistinctCommentTimes(S: set<Comment>, parse: Parser) {
    forall c, d :: c in S && d in S && c != d ==> Key(parse, c.createdAt) != Key(parse, d.createdAt)
  }

  /** An order a successful post-listing call may use: the stored posts, newest first. */
  ghost predicate PostCallOrder(s: seq<Post>, posts: map<string, Post>, parse: Parser) {
    multiset(s) == multiset(posts.Values) && NewestFirst(s, parse)
  }

  /** An order a successful comment-listing call may use: the selected comments `S`, oldest first. */
  ghost predicate CommentCallOrder(s: seq<Comment>, S: set<Comment>, parse: Parser) {
    multiset(s) == multiset(S) && OldestFirst(s, parse)
  }

  /** With pairwise-distinct instants, every successful post listing orders the store the same way. */
  lemma PostCallOrderUnique(posts: map<string, Post>, parse: Parser, s1: seq<Post>, s2: seq<Post>)
    requires PostCallOrder(s1, posts, parse) && PostCallOrder(s2, posts, parse)
    requires DistinctPostTimes(posts.Values, parse)
    ensures s1 == s2
  {
    var rank := (p: Post) => -Key(parse, p.createdAt);
    forall s: seq<Post> | s == s1 || s == s2 ensures Listing.SortedBy(s, rank) {
      forall i, j | 0 <= i < j < |s| ensures rank(s[i]) <= rank(s[j]) {
        assert Key(parse, s[j].createdAt) <= Key(parse, s[i].createdAt);
      }
    }
    forall x, y | x in s1 && y in s1 && x != y ensures rank(x) != rank(y) {
      assert x in multiset(s1) && y in multiset(s1);
    }
    RankedUnique(s1, s2, rank);
  }

  /** With pairwise-distinct instants, every successful comment listing orders the selection the same way. */
  lemma CommentCallOrderUnique(S: set<Comment>, parse: Parser, s1: seq<Comment>, s2: seq<Comment>)
    requires CommentCallOrder(s1, S, parse) && CommentCallOrder(s2, S, parse)
    requires DistinctCommentTimes(S, parse)
    ensures s1 == s2
  {
    var rank := (c: Comment) => Key(parse, c.createdAt);
    forall s: seq<Comment> | s == s1 || s == s2 ensures Listing.SortedBy(s, rank) {
      forall i, j | 0 <= i < j < |s| ensures rank(s[i]) <= rank(s[j]) {
        assert Key(parse, s[i].createdAt) <= Key(parse, s[j].createdAt);
      }
    }
    forall x, y | x in s1 && y in s1 && x != y ensures rank(x) != rank(y) {
      assert x in multiset(s1) && y in multiset(s1);
    }
    RankedUnique(s1, s2, rank);
  }

  // ------------------------------------------------------- post chains

  /**
   * What a client collects from a chain of post-listing calls in which call k sorts the
   * store as `orders[k]`: it starts from `after` and passes the id of the last post it
   * received until no page follows. Only the first |orders| calls are made.
   */
  ghost function PostsChain(orders: seq<seq<Post>>, first: nat, after: Option<string>): seq<Post>
    decreases |orders|
  {
    if orders == [] then []
    else
      var r := PostsPage(orders[0], first, after);
      if !r.hasNextPage then r.posts
      else r.posts + PostsChain(orders[1..], first, Some(r.posts[|r.posts| - 1].id))
  }

  /** One call of the chain: its page, then the rest of the chain from the page's last post. */
  lemma PostsChainStep(orders: seq<seq<Post>>, first: nat, after: Option<string>)
    requires orders != [] && PostsPage(orders[0], first, after).hasNextPage
    ensures var r := PostsPage(orders[0], first, after);
            && r.posts != []
            && PostsChain(orders, first, after)
               == r.posts + PostsChain(orders[1..], first, Some(r.posts[|r.posts| - 1].id))
  {
  }

  /** When every call sorts the same way, the chain is the walk over that one order. */
  lemma {:induction false} PostsChainFixed(orders: seq<seq<Post>>, sorted: seq<Post>, first: nat, after: Option<string>)
    requires forall k :: 0 <= k < |orders| ==> orders[k] == sorted
    requires Distinct(sorted, PostId)
    requires forall j :: 0 <= j < |sorted| ==> sorted[j].id != ""
    requires |orders| > |sorted| - PostStart(sorted, after)
    ensures PostsChain(orders, first, after) == PostsWalk(sorted, first, after)
    decreases |orders|
  {
    assert orders[0] == sorted;
    var r := PostsPage(sorted, first, after);
    if r.hasNextPage {
      var next := PostsWalkStep(sorted, first, after);
      assert |orders[1..]| > |sorted| - PostStart(sorted, next);
      PostsChainStep(orders, first, after);
      PostsChainFixed(orders[1..], sorted, first, next);
    } else {
      assert PostsChain(orders, first, after) == r.posts == PostsWalk(sorted, first, after);
    }
  }

  /**
   * Exhaustion across calls: when no stored post has the empty id and no two share an
   * instant, chaining from no cursor returns every stored post once, newest first, whatever
   * order each call's map iteration took, provided the client makes more calls than there
   * are posts.
   */
  lemma PostsChainVisitsAll(posts: map<string, Post>, parse: Parser, orders: seq<seq<Post>>, first: nat)
    requires KeyedBy(posts, PostId) && "" !in posts
    requires DistinctPostTimes(posts.Values, parse)
    requires forall k :: 0 <= k < |orders| ==> PostCallOrder(orders[k], posts, parse)
    requires |orders| > |posts.Values|
    ensures PostsChain(orders, first, None) == orders[0]
    ensures multiset(PostsChain(orders, first, None)) == multiset(posts.Values)
    ensures NewestFirst(PostsChain(orders, first, None), parse)
  {
    var sorted := orders[0];
    forall k | 0 <= k < |orders| ensures orders[k] == sorted {
      PostCallOrderUnique(posts, parse, orders[k], sorted);
    }
    Listing.DistinctFromStore(sorted, posts.Values, posts, PostId);
    forall j | 0 <= j < |sorted| ensures sorted[j].id != "" {
      assert sorted[j] in multiset(posts.Values);
    }
    assert |sorted| == |multiset(sorted)| == |multiset(posts.Values)| == |posts.Values|;
    PostsChainFixed(orders, sorted, first, None);
    PostsWalkVisitsAll(sorted, first);
  }

  /**
   * Two posts created in the same second and `first = 1`: both orders are ones the listing
   * may produce, and when the second call sorts the other way round the chain stops after
   * one post, so `b` is never returned.
   */
  lemma PostsChainTieSkips()
    ensures var a := Post("a", "A", "", "x", "2024-01-01T00:00:00Z", true);
            var b := Post("b", "B", "", "y", "2024-01-01T00:00:00Z", true);
            var parse: Parser := (s: string) => Some(1704067200);
            var posts := map["a" := a, "b" := b];
            && KeyedBy(posts, PostId)
            && PostCallOrder([a, b], posts, parse) && PostCallOrder([b, a], posts, parse)
            && PostsChain([[a, b], [b, a], [b, a]], 1, None) == [a]
  {
    var a := Post("a", "A", "", "x", "2024-01-01T00:00:00Z", true);
    var b := Post("b", "B", "", "y", "2024-01-01T00:00:00Z", true);
    var posts := map["a" := a, "b" := b];
    assert posts.Values == {a, b} by {
      assert posts["a"] == a && posts["b"] == b;
      forall v | v in posts.Values ensures v == a || v == b {
        var k :| k in posts && posts[k] == v;
      }
    }
    assert PostsPage([a, b], 1, None) == PostsResult([a], true);
    assert StartAfter([b, a], PostId, "a") == 2 by {
      assert [b, a][1..] == [a];
      assert StartAfter([a], PostId, "a") == 1;
    }
    assert PostsPage([b, a], 1, Some("a")) == PostsResult([], false);
  }

  /**
   * A stored post with the empty id that ends a page hands out a cursor the listing ignores,
   * so the next call starts from the beginning again.
   */
  lemma PostsEmptyIdRestarts(sorted: seq<Post>)
    requires |sorted| >= 2 && sorted[0].id == ""
    ensures PostsPage(sorted, 1, None) == PostsResult([sorted[0]], true)
    ensures PostsPage(sorted, 1, Some(sorted[0].id)) == PostsPage(sorted, 1, None)
  {
  }

  // ---------------------------------------------------- comment chains

  /**
   * What a client collects from a chain of comment-listing calls in which call k sorts the
   * selected comments as `orders[k]`. Only the first |orders| calls are made.
   */
  ghost function CommentsChain(orders: seq<seq<Comment>>, first: nat, after: Option<string>): seq<Comment>
    requires first >= 1
    decreases |orders|
  {
    if orders == [] then []
    else
      var r := CommentsPage(orders[0], first, after);
      if !r.hasNextPage then r.comments
      else r.comments + CommentsChain(orders[1..], first, Some(r.comments[|r.comments| - 1].id))
  }

  /** One call of the chain: its page, then the rest of the chain from the page's last comment. */
  lemma CommentsChainStep(orders: seq<seq<Comment>>, first: nat, after: Option<string>)
    requires orders != [] && first >= 1 && CommentsPage(orders[0], first, after).hasNextPage
    ensures var r := CommentsPage(orders[0], first, after);
            && r.comments != []
            && CommentsChain(orders, first, after)
               == r.comments + CommentsChain(orders[1..], first, Some(r.comments[|r.comments| - 1].id))
  {
  }

  lemma {:induction false} CommentsChainFixed(orders: seq<seq<Comment>>, sorted: seq<Comment>, first: nat,
                                              after: Option<string>)
    requires forall k :: 0 <= k < |orders| ==> orders[k] == sorted
    requires Distinct(sorted, CommentId) && first >= 1
    requires |orders| > |sorted| - CommentStart(sorted, after)
    ensures CommentsChain(orders, first, after) == CommentsWalk(sorted, first, after)
    decreases |orders|
  {
    assert orders[0] == sorted;
    var r := CommentsPage(sorted, first, after);
    if r.hasNextPage {
      var next := CommentsWalkStep(sorted, first, after);
      assert |orders[1..]| > |sorted| - CommentStart(sorted, next);
      CommentsChainStep(orders, first, after);
      assert forall k :: 0 <= k < |orders[1..]| ==> orders[1..][k] == sorted;
      CommentsChainFixed(orders[1..], sorted, first, next);
    } else {
      assert CommentsChain(orders, first, after) == r.comments == CommentsWalk(sorted, first, after);
    }
  }

  /**
   * Exhaustion across calls for a comment selection `S` drawn from a store (a post's comments
   * or a comment's replies): with pairwise-distinct instants and `first >= 1`, chaining from no
   * cursor returns every selected comment once, oldest first, whatever order each call took.
   */
  lemma CommentsChainVisitsAll(comments: map<string, Comment>, S: set<Comment>, parse: Parser,
                               orders: seq<seq<Comment>>, first: nat)
    requires KeyedBy(comments, CommentId) && S <= comments.Values && first >= 1
    requires DistinctCommentTimes(S, parse)
    requires forall k :: 0 <= k < |orders| ==> CommentCallOrder(orders[k], S, parse)
    requires |orders| > |S|
    ensures CommentsChain(orders, first, None) == orders[0]
    ensures multiset(CommentsChain(orders, first, None)) == multiset(S)
    ensures OldestFirst(CommentsChain(orders, first, None), parse)
  {
    var sorted := orders[0];
    forall k | 0 <= k < |orders| ensures orders[k] == sorted {
      CommentCallOrderUnique(S, parse, orders[k], sorted);
    }
    Listing.DistinctFromStore(sorted, S, comments, CommentId);
    assert |sorted| == |multiset(sorted)| == |multiset(S)| == |S|;
    CommentsChainFixed(orders, sorted, first, None);
    CommentsWalkVisitsAll(sorted, first);
  }

  /**
   * Two comments of one post created in the same second and `first = 1`: when the second
   * call sorts them the other way round, the chain ends after `c` and `d` is never returned.
   */
  lemma CommentsChainTieSkips()
    ensures var c := Comment("c", "p", None, "x", "first", "2024-01-01T00:00:00Z");
            var d := Comment("d", "p", None, "y", "second", "2024-01-01T00:00:00Z");
            var parse: Parser := (s: string) => Some(1704067200);
            && CommentCallOrder([c, d], {c, d}, parse) && CommentCallOrder([d, c], {c, d}, parse)
            && CommentsChain([[c, d], [d, c], [d, c]], 1, None) == [c]
  {
    var c := Comment("c", "p", None, "x", "first", "2024-01-01T00:00:00Z");
    var d := Comment("d", "p", None, "y", "second", "2024-01-01T00:00:00Z");
    assert CommentsPage([c, d], 1, None) == CommentsResult([c], true);
    assert StartAfter([d, c], CommentId, "c") == 2 by {
      assert [d, c][1..] == [c];
      assert StartAfter([c], CommentId, "c") == 1;
    }
    assert CommentsPage([d, c], 1, Some("c")) == CommentsResult([], false);
  }
}
