/**
 * The loops every in-memory listing runs, shared by both generations: collecting the
 * store's entries (in Go's unordered map iteration), filtering, the date check, the sort
 * and the cursor search.
 */
module Listing {
  import opened Types
  import opened Timestamps
  import opened Paging

  /** The store values found under the keys `ks`. */
  ghost function ValuesAt<T>(m: map<string, T>, ks: set<string>): set<T> {
    set k | k in ks && k in m :: m[k]
  }

  /** The comments of one post, among the stored ones. */
  ghost function PostComments(m: map<string, Comment>, postId: string): set<Comment> {
    set c | c in m.Values && c.postId == postId
  }

  /** The replies to one comment, among the stored ones: a parent link that is present and equal. */
  ghost function Replies(m: map<string, Comment>, parentId: string): set<Comment> {
    set c | c in m.Values && c.parentId == Some(parentId)
  }

  /** `s` never decreases in `rank`. */
  ghost predicate SortedBy<T>(s: seq<T>, rank: T -> int) {
    forall i, j :: 0 <= i < j < |s| ==> rank(s[i]) <= rank(s[j])
  }

  /** Adding the value under a key not yet visited adds exactly one element. */
  lemma ValuesAtAdd<T>(m: map<string, T>, idOf: T -> string, ks: set<string>, k: string)
    requires KeyedBy(m, idOf) && k in m && k !in ks
    ensures ValuesAt(m, ks + {k}) == ValuesAt(m, ks) + {m[k]}
    ensures m[k] !in ValuesAt(m, ks)
  {
  }

  lemma ValuesAtAll<T>(m: map<string, T>)
    ensures ValuesAt(m, m.Keys) == m.Values
  {
    forall x | x in m.Values ensures x in ValuesAt(m, m.Keys) {
      var k :| k in m && m[k] == x;
    }
  }

  /** A listing drawn without repetition from a store keyed by id has no two entries with one id. */
  lemma {:induction false} DistinctFromStore<T>(s: seq<T>, S: set<T>, m: map<string, T>, idOf: T -> string)
    requires KeyedBy(m, idOf) && S <= m.Values && multiset(s) == multiset(S)
    ensures Distinct(s, idOf)
  {
    forall i, j | 0 <= i < j < |s| ensures idOf(s[i]) != idOf(s[j]) {
      RepeatCounts(s, i, j);
      assert s[i] in multiset(s) && s[j] in multiset(s);
      assert s[i] in S && s[j] in S;
      var ki :| ki in m && m[ki] == s[i];
      var kj :| kj in m && m[kj] == s[j];
    }
  }

  /** Two equal positions put an element into the multiset at least twice. */
  lemma RepeatCounts<T>(s: seq<T>, i: nat, j: nat)
    requires i < j < |s|
    ensures s[i] == s[j] ==> multiset(s)[s[j]] >= 2
  {
    assert s == s[..j] + s[j..];
    assert s[i] in s[..j];
    assert s[j] in s[j..];
  }

  method Swap<T>(a: array<T>, i: nat, j: nat)
    requires i < a.Length && j < a.Length
    modifies a
    ensures a[..] == old(a[..])[i := old(a[j])][j := old(a[i])]
    ensures multiset(a[..]) == old(multiset(a[..]))
  {
    a[i], a[j] := a[j], a[i];
  }

  /** `s[..n]` never decreases in `rank`. */
  ghost predicate PrefixSorted<T>(s: seq<T>, rank: T -> int, n: nat) {
    forall p, q :: 0 <= p < q < n && q < |s| ==> rank(s[p]) <= rank(s[q])
  }

  /**
   * The inner loop of the insertion sort: the element being inserted sits at `j`,
   * `s[..i + 1]` without it is sorted, and it is smaller than everything after it up to `i`.
   */
  ghost predicate Inserting<T>(s: seq<T>, rank: T -> int, i: nat, j: nat) {
    && j <= i < |s|
    && (forall p, q :: 0 <= p < q <= i && p != j && q != j ==> rank(s[p]) <= rank(s[q]))
    && (forall q :: j < q <= i ==> rank(s[j]) < rank(s[q]))
  }

  lemma InsertingStart<T>(s: seq<T>, rank: T -> int, i: nat)
    requires i < |s| && PrefixSorted(s, rank, i)
    ensures Inserting(s, rank, i, i)
  {
  }

  /** Swapping the inserted element with a larger left neighbour moves it one place left. */
  lemma InsertingStep<T>(s: seq<T>, rank: T -> int, i: nat, j: nat)
    requires Inserting(s, rank, i, j) && 0 < j && rank(s[j - 1]) > rank(s[j])
    ensures Inserting(s[j - 1 := s[j]][j := s[j - 1]], rank, i, j - 1)
  {
  }

  /** Once the left neighbour is no larger, `s[..i + 1]` is sorted. */
  lemma InsertingDone<T>(s: seq<T>, rank: T -> int, i: nat, j: nat)
    requires Inserting(s, rank, i, j) && (j == 0 || rank(s[j - 1]) <= rank(s[j]))
    ensures PrefixSorted(s, rank, i + 1)
  {
    forall p, q | 0 <= p < q < i + 1 && q < |s| ensures rank(s[p]) <= rank(s[q]) {
      if q == j && p < j - 1 {
        assert rank(s[p]) <= rank(s[j - 1]);
      }
    }
  }

  /**
   * The library sort (sort.Slice, sort.SliceStable) as an in-place insertion sort,
   * ascending by `rank`. Only sortedness and the result being a permutation are proved;
   * whether equal ranks keep their order is left open.
   */
  method SortByRank<T>(a: array<T>, rank: T -> int)
    modifies a
    ensures SortedBy(a[..], rank)
    ensures multiset(a[..]) == old(multiset(a[..]))
  {
    var i := 0;
    while i < a.Length
      invariant 0 <= i <= a.Length
      invariant PrefixSorted(a[..], rank, i)
      invariant multiset(a[..]) == old(multiset(a[..]))
    {
      InsertingStart(a[..], rank, i);
      var j := i;
      while j > 0 && rank(a[j - 1]) > rank(a[j])
        invariant Inserting(a[..], rank, i, j)
        invariant multiset(a[..]) == old(multiset(a[..]))
      {
        InsertingStep(a[..], rank, i, j);
        Swap(a, j - 1, j);
        j := j - 1;
      }
      InsertingDone(a[..], rank, i, j);
      i := i + 1;
    }
  }

  /** Sorting a slice: the elements of `s`, rearranged into ascending `rank`. */
  method Sorted<T>(s: seq<T>, rank: T -> int) returns (r: seq<T>)
    ensures SortedBy(r, rank)
    ensures multiset(r) == multiset(s)
  {
    var a := new T[|s|](i requires 0 <= i < |s| => s[i]);
    assert a[..] == s;
    SortByRank(a, rank);
    r := a[..];
  }

  /** The cursor-search loop: scans for the first id equal to `cursor` and breaks there. */
  method FindAfter<T>(s: seq<T>, idOf: T -> string, cursor: string) returns (start: nat)
    ensures start == StartAfter(s, idOf, cursor)
  {
    start := 0;
    var i := 0;
    while i < |s|
      invariant i <= |s|
      invariant forall j :: 0 <= j < i ==> idOf(s[j]) != cursor
    {
      if idOf(s[i]) == cursor {
        start := i + 1;
        return;
      }
      i := i + 1;
    }
  }

  /**
   * The posts loop: visits every stored post in an unspecified order, fails on the first
   * one whose `CreatedAt` does not parse, and otherwise collects them all.
   */
  method CollectPosts(posts: map<string, Post>, parse: Parser) returns (r: Result<seq<Post>, Error>)
    requires KeyedBy(posts, PostId)
    ensures r.Failure? <==> exists k :: k in posts && !ValidTime(parse, posts[k].createdAt)
    ensures r.Failure? ==> r.error.InvalidCreatedAt? && r.error.postId in posts
                           && !ValidTime(parse, posts[r.error.postId].createdAt)
    ensures r.Success? ==> multiset(r.value) == multiset(posts.Values)
  {
    var keys := posts.Keys;
    var valid: seq<Post> := [];
    while keys != {}
      invariant keys <= posts.Keys
      invariant forall k :: k in posts && k !in keys ==> ValidTime(parse, posts[k].createdAt)
      invariant multiset(valid) == multiset(ValuesAt(posts, posts.Keys - keys))
      decreases |keys|
    {
      var k :| k in keys;
      var post := posts[k];
      assert post.id == PostId(posts[k]) == k;
      if !ValidTime(parse, post.createdAt) {
        return Failure(InvalidCreatedAt(post.id));
      }
      ghost var seen := posts.Keys - keys;
      assert posts.Keys - (keys - {k}) == seen + {k};
      ValuesAtAdd(posts, PostId, seen, k);
      MultisetAddFresh(ValuesAt(posts, seen), post);
      valid := valid + [post];
      keys := keys - {k};
    }
    ValuesAtAll(posts);
    assert posts.Keys - keys == posts.Keys;
    return Success(valid);
  }

  /** The comments of post `postId` stored under the keys `ks`. */
  ghost function PostCommentsAt(m: map<string, Comment>, ks: set<string>, postId: string): set<Comment> {
    set k | k in ks && k in m && m[k].postId == postId :: m[k]
  }

  /** The replies to `parentId` stored under the keys `ks`. */
  ghost function RepliesAt(m: map<string, Comment>, ks: set<string>, parentId: string): set<Comment> {
    set k | k in ks && k in m && m[k].parentId == Some(parentId) :: m[k]
  }

  lemma PostCommentsAtAll(m: map<string, Comment>, postId: string)
    ensures PostCommentsAt(m, m.Keys, postId) == PostComments(m, postId)
  {
    forall c | c in PostComments(m, postId) ensures c in PostCommentsAt(m, m.Keys, postId) {
      var k :| k in m && m[k] == c;
    }
  }

  lemma RepliesAtAll(m: map<string, Comment>, parentId: string)
    ensures RepliesAt(m, m.Keys, parentId) == Replies(m, parentId)
  {
    forall c | c in Replies(m, parentId) ensures c in RepliesAt(m, m.Keys, parentId) {
      var k :| k in m && m[k] == c;
    }
  }

  /** Adding a new element to a set adds it once to the set's multiset. */
  lemma MultisetAddFresh<T>(S: set<T>, x: T)
    requires x !in S
    ensures multiset(S + {x}) == multiset(S) + multiset{x}
  {
  }

  /** Looking at one more key `k` adds its comment exactly when it belongs to the post; it was not there before. */
  lemma PostCommentsAtStep(m: map<string, Comment>, seen: set<string>, k: string, postId: string)
    requires KeyedBy(m, CommentId) && k in m && k !in seen
    ensures m[k] !in PostCommentsAt(m, seen, postId)
    ensures PostCommentsAt(m, seen + {k}, postId)
            == PostCommentsAt(m, seen, postId) + (if m[k].postId == postId then {m[k]} else {})
  {
    assert CommentId(m[k]) == k;
  }

  /** Looking at one more key `k` adds its comment exactly when it replies to the parent; it was not there before. */
  lemma RepliesAtStep(m: map<string, Comment>, seen: set<string>, k: string, parentId: string)
    requires KeyedBy(m, CommentId) && k in m && k !in seen
    ensures m[k] !in RepliesAt(m, seen, parentId)
    ensures RepliesAt(m, seen + {k}, parentId)
            == RepliesAt(m, seen, parentId) + (if m[k].parentId == Some(parentId) then {m[k]} else {})
  {
    assert CommentId(m[k]) == k;
  }

  /** The filter loop of the post-comments listing: every stored comment whose `PostID` matches. */
  method FilterByPost(comments: map<string, Comment>, postId: string) returns (filtered: seq<Comment>)
    requires KeyedBy(comments, CommentId)
    ensures multiset(filtered) == multiset(PostComments(comments, postId))
  {
    var keys := comments.Keys;
    filtered := [];
    while keys != {}
      invariant keys <= comments.Keys
      invariant multiset(filtered) == multiset(PostCommentsAt(comments, comments.Keys - keys, postId))
      decreases |keys|
    {
      var k :| k in keys;
      var comment := comments[k];
      ghost var seen := comments.Keys - keys;
      assert comments.Keys - (keys - {k}) == seen + {k};
      PostCommentsAtStep(comments, seen, k, postId);
      if comment.postId == postId {
        MultisetAddFresh(PostCommentsAt(comments, seen, postId), comment);
        filtered := filtered + [comment];
      }
      keys := keys - {k};
    }
    PostCommentsAtAll(comments, postId);
    assert comments.Keys - keys == comments.Keys;
  }

  /** The filter loop of the replies listing: every stored comment with a parent link equal to `parentId`. */
  method FilterByParent(comments: map<string, Comment>, parentId: string) returns (filtered: seq<Comment>)
    requires KeyedBy(comments, CommentId)
    ensures multiset(filtered) == multiset(Replies(comments, parentId))
  {
    var keys := comments.Keys;
    filtered := [];
    while keys != {}
      invariant keys <= comments.Keys
      invariant multiset(filtered) == multiset(RepliesAt(comments, comments.Keys - keys, parentId))
      decreases |keys|
    {
      var k :| k in keys;
      var comment := comments[k];
      ghost var seen := comments.Keys - keys;
      assert comments.Keys - (keys - {k}) == seen + {k};
      RepliesAtStep(comments, seen, k, parentId);
      if comment.parentId.Some? && comment.parentId.value == parentId {
        MultisetAddFresh(RepliesAt(comments, seen, parentId), comment);
        filtered := filtered + [comment];
      }
      keys := keys - {k};
    }
    RepliesAtAll(comments, parentId);
    assert comments.Keys - keys == comments.Keys;
  }

  /** The date check of the comment listings: true when every `CreatedAt` parses. */
  method CheckDates(s: seq<Comment>, parse: Parser) returns (ok: bool)
    ensures ok <==> forall i :: 0 <= i < |s| ==> ValidTime(parse, s[i].createdAt)
  {
    var i := 0;
    while i < |s|
      invariant i <= |s|
      invariant forall j :: 0 <= j < i ==> ValidTime(parse, s[j].createdAt)
    {
      if !ValidTime(parse, s[i].createdAt) {
        return false;
      }
      i := i + 1;
    }
    return true;
  }

  // ------------------------------------------------------------ pipelines

  /** Ascending in the negated instant is newest first. */
  lemma NewestFirstOfRank(s: seq<Post>, parse: Parser)
    requires SortedBy(s, (p: Post) => -Key(parse, p.createdAt))
    ensures NewestFirst(s, parse)
  {
    forall i, j | 0 <= i < j < |s| ensures Key(parse, s[j].createdAt) <= Key(parse, s[i].createdAt) {
      assert ((p: Post) => -Key(parse, p.createdAt))(s[i]) <= ((p: Post) => -Key(parse, p.createdAt))(s[j]);
    }
  }

  /** Ascending in the instant is oldest first. */
  lemma OldestFirstOfRank(s: seq<Comment>, parse: Parser)
    requires SortedBy(s, (c: Comment) => Key(parse, c.createdAt))
    ensures OldestFirst(s, parse)
  {
    forall i, j | 0 <= i < j < |s| ensures Key(parse, s[i].createdAt) <= Key(parse, s[j].createdAt) {
      assert ((c: Comment) => Key(parse, c.createdAt))(s[i]) <= ((c: Comment) => Key(parse, c.createdAt))(s[j]);
    }
  }

  /** After the sort of a post listing: locate the cursor (ignoring ""), clamp `first`, slice. */
  method PostsWindow(sorted: seq<Post>, first: nat, after: Option<string>) returns (r: PostsResult)
    ensures r == PostsPage(sorted, first, after)
  {
    var startIndex := 0;
    if after.Some? && after.value != "" {
      startIndex := FindAfter(sorted, PostId, after.value);
    }
    var numPosts := |sorted| - startIndex;
    var n := first;
    if n == 0 || n > numPosts {
      n := numPosts;
    }
    var postSlice := sorted[startIndex..startIndex + n];
    var hasNextPage := numPosts > n;
    r := PostsResult(postSlice, hasNextPage);
  }

  /** After the sort of a comment listing: locate the cursor (any non-nil one), cut at start + first, slice. */
  method CommentsWindow(sorted: seq<Comment>, first: nat, after: Option<string>) returns (r: CommentsResult)
    ensures r == CommentsPage(sorted, first, after)
  {
    var start := 0;
    if after.Some? {
      start := FindAfter(sorted, CommentId, after.value);
    }
    var end := start + first;
    if end > |sorted| {
      end := |sorted|;
    }
    var commentSlice := sorted[start..end];
    var hasNextPage := end < |sorted|;
    r := CommentsResult(commentSlice, hasNextPage);
  }

  /**
   * The post listing of both generations: check every stored date while collecting, sort
   * newest first, then cut the page. `sorted` is the order produced by the unordered map
   * iteration and the sort.
   */
  method ListPosts(posts: map<string, Post>, first: nat, after: Option<string>, parse: Parser)
    returns (r: Result<PostsResult, Error>, ghost sorted: seq<Post>)
    requires KeyedBy(posts, PostId)
    ensures r.Failure? <==> exists k :: k in posts && !ValidTime(parse, posts[k].createdAt)
    ensures r.Failure? ==> r.error.InvalidCreatedAt? && r.error.postId in posts
                           && !ValidTime(parse, posts[r.error.postId].createdAt)
    ensures r.Success? ==> && multiset(sorted) == multiset(posts.Values)
                           && NewestFirst(sorted, parse)
                           && r.value == PostsPage(sorted, first, after)
  {
    var collected := CollectPosts(posts, parse);
    if collected.Failure? {
      return Failure(collected.error), [];
    }
    var sortedPosts := Sorted(collected.value, (p: Post) => -Key(parse, p.createdAt));
    NewestFirstOfRank(sortedPosts, parse);
    var page := PostsWindow(sortedPosts, first, after);
    return Success(page), sortedPosts;
  }

  /**
   * The tail of both comment listings, after the filter: sort oldest first, fail if any
   * filtered date does not parse, then cut the page.
   */
  method SortCheckWindow(filtered: seq<Comment>, first: nat, after: Option<string>, parse: Parser)
    returns (r: Result<CommentsResult, Error>, ghost sorted: seq<Comment>)
    ensures r.Failure? <==> exists c :: c in filtered && !ValidTime(parse, c.createdAt)
    ensures r.Failure? ==> r.error == DateParse
    ensures r.Success? ==> && multiset(sorted) == multiset(filtered)
                           && OldestFirst(sorted, parse)
                           && r.value == CommentsPage(sorted, first, after)
  {
    var s := Sorted(filtered, (c: Comment) => Key(parse, c.createdAt));
    OldestFirstOfRank(s, parse);
    sorted := s;
    var ok := CheckDates(s, parse);
    assert forall c :: c in filtered <==> c in s by {
      forall c ensures c in filtered <==> c in s {
        assert c in filtered <==> c in multiset(filtered);
        assert c in s <==> c in multiset(s);
      }
    }
    if !ok {
      return Failure(DateParse), sorted;
    }
    var page := CommentsWindow(s, first, after);
    r := Success(page);
  }

  /** The comments-for-post listing of both generations. */
  method ListCommentsForPost(comments: map<string, Comment>, postId: string, first: nat,
                             after: Option<string>, parse: Parser)
    returns (r: Result<CommentsResult, Error>, ghost sorted: seq<Comment>)
    requires KeyedBy(comments, CommentId)
    ensures r.Failure? <==> exists c :: c in PostComments(comments, postId) && !ValidTime(parse, c.createdAt)
    ensures r.Failure? ==> r.error == DateParse
    ensures r.Success? ==> && multiset(sorted) == multiset(PostComments(comments, postId))
                           && OldestFirst(sorted, parse)
                           && r.value == CommentsPage(sorted, first, after)
  {
    var filtered := FilterByPost(comments, postId);
    InSameElements(filtered, PostComments(comments, postId));
    r, sorted := SortCheckWindow(filtered, first, after, parse);
  }

  /** The replies listing (the older generation's; the newer one's is not among the modelled files). */
  method ListReplies(comments: map<string, Comment>, parentId: string, first: nat,
                     after: Option<string>, parse: Parser)
    returns (r: Result<CommentsResult, Error>, ghost sorted: seq<Comment>)
    requires KeyedBy(comments, CommentId)
    ensures r.Failure? <==> exists c :: c in Replies(comments, parentId) && !ValidTime(parse, c.createdAt)
    ensures r.Failure? ==> r.error == DateParse
    ensures r.Success? ==> && multiset(sorted) == multiset(Replies(comments, parentId))
                           && OldestFirst(sorted, parse)
                           && r.value == CommentsPage(sorted, first, after)
  {
    var filtered := FilterByParent(comments, parentId);
    InSameElements(filtered, Replies(comments, parentId));
    r, sorted := SortCheckWindow(filtered, first, after, parse);
  }

  lemma InSameElements<T>(s: seq<T>, S: set<T>)
    requires multiset(s) == multiset(S)
    ensures forall x :: x in s <==> x in S
  {
    forall x ensures x in s <==> x in S {
      assert x in s <==> x in multiset(s);
    }
  }
}
