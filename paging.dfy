/**
 * The page arithmetic both in-memory generations share: locating the cursor in the
 * sorted listing, clamping `first`, slicing, and `hasNextPage`.
 * Posts and comments differ in three places, kept apart here: an empty-string cursor
 * is ignored for posts and searched for comments; `first == 0` means "all remaining"
 * for posts and "nothing" for comments; the clamping is written differently.
 */
module Paging {
  import opened Types

  function PostId(p: Post): string { p.id }

  function CommentId(c: Comment): string { c.id }

  /** No two elements share an id. */
  ghost predicate Distinct<T>(s: seq<T>, idOf: T -> string) {
    forall i, j :: 0 <= i < j < |s| ==> idOf(s[i]) != idOf(s[j])
  }

  /** Every entry of a store map sits under its own id, as an insert by id leaves it. */
  ghost predicate KeyedBy<T>(m: map<string, T>, idOf: T -> string) {
    forall k :: k in m ==> idOf(m[k]) == k
  }

  /**
   * The index just past the first element whose id is `cursor`, or 0 when no element
   * has that id: the result of the cursor-search loops, which `break` at the first match.
   */
  function StartAfter<T>(s: seq<T>, idOf: T -> string, cursor: string): (k: nat)
    ensures k <= |s|
    ensures 0 < k ==> idOf(s[k - 1]) == cursor
    ensures forall j :: 0 <= j < |s| && (k == 0 || j < k - 1) ==> idOf(s[j]) != cursor
  {
    if s == [] then 0
    else if idOf(s[0]) == cursor then 1
    else
      var k := StartAfter(s[1..], idOf, cursor);
      if k == 0 then 0 else k + 1
  }

  // ---------------------------------------------------------------- posts

  /** Start index of a post page: a nil or empty cursor starts at 0, otherwise just past the match. */
  function PostStart(sorted: seq<Post>, after: Option<string>): (k: nat)
    ensures k <= |sorted|
    ensures 0 < k ==> after.Some? && after.value != "" && sorted[k - 1].id == after.value
  {
    if after.None? || after.value == "" then 0 else StartAfter(sorted, PostId, after.value)
  }

  /** Number of posts on the page: `first`, unless it is 0 or exceeds what remains. */
  function PostPageLength(remaining: nat, first: nat): (n: nat)
    ensures n <= remaining
    ensures n < remaining ==> n == first && 0 < first
  {
    if first == 0 || first > remaining then remaining else first
  }

  /** The page a post listing returns from the sorted posts. */
  function PostsPage(sorted: seq<Post>, first: nat, after: Option<string>): (r: PostsResult)
    ensures |r.posts| <= |sorted|
    ensures r.hasNextPage ==> 0 < first && |r.posts| == first
  {
    var start := PostStart(sorted, after);
    var n := PostPageLength(|sorted| - start, first);
    PostsResult(sorted[start..start + n], |sorted| - start > n)
  }

  lemma PostStartRules(sorted: seq<Post>, after: Option<string>)
    ensures after.None? || after == Some("") ==> PostStart(sorted, after) == 0
    ensures (after.Some? && forall j :: 0 <= j < |sorted| ==> sorted[j].id != after.value)
            ==> PostStart(sorted, after) == 0
    ensures PostStart(sorted, after) <= |sorted|
  {
  }

  /** A found cursor at sorted index i starts the page at i + 1 (ids are distinct and `i`'s is not empty). */
  lemma {:induction false} PostStartAtMatch(sorted: seq<Post>, i: nat)
    requires i < |sorted| && Distinct(sorted, PostId) && sorted[i].id != ""
    ensures PostStart(sorted, Some(sorted[i].id)) == i + 1
  {
    assert PostId(sorted[i]) == sorted[i].id;
  }

  /** The page is the window sorted[start .. start + n], and `hasNextPage` says that posts remain after it. */
  lemma PostsPageWindow(sorted: seq<Post>, first: nat, after: Option<string>)
    ensures var r := PostsPage(sorted, first, after);
            var start := PostStart(sorted, after);
            var remaining := |sorted| - start;
            && |r.posts| == (if first == 0 || first > remaining then remaining else first)
            && r.posts == sorted[start..start + |r.posts|]
            && (r.hasNextPage <==> start + |r.posts| < |sorted|)
            && (r.hasNextPage <==> remaining > |r.posts|)
  {
  }

  /** `first == 0` returns everything after the cursor, and then no page follows. */
  lemma PostsFirstZero(sorted: seq<Post>, after: Option<string>)
    ensures PostsPage(sorted, 0, after) == PostsResult(sorted[PostStart(sorted, after)..], false)
  {
  }

  /** An empty-string cursor is ignored. */
  lemma PostsEmptyCursorIgnored(sorted: seq<Post>, first: nat)
    ensures PostsPage(sorted, first, Some("")) == PostsPage(sorted, first, None)
  {
  }

  /** A cursor no post has gives the same page as no cursor. */
  lemma PostsUnknownCursor(sorted: seq<Post>, first: nat, cursor: string)
    requires forall j :: 0 <= j < |sorted| ==> sorted[j].id != cursor
    ensures PostsPage(sorted, first, Some(cursor)) == PostsPage(sorted, first, None)
  {
  }

  /** `first = 1` from the start returns the newest post, and more follow when there are at least two. */
  lemma PostsFirstOne(sorted: seq<Post>)
    requires |sorted| >= 1
    ensures PostsPage(sorted, 1, None) == PostsResult([sorted[0]], |sorted| >= 2)
  {
  }

  /** The post at a found cursor is not on the page after it. */
  lemma {:induction false} PostsCursorExcluded(sorted: seq<Post>, first: nat, i: nat)
    requires i < |sorted| && Distinct(sorted, PostId) && sorted[i].id != ""
    ensures forall p :: p in PostsPage(sorted, first, Some(sorted[i].id)).posts ==> p.id != sorted[i].id
  {
    PostStartAtMatch(sorted, i);
    var r := PostsPage(sorted, first, Some(sorted[i].id));
    forall p | p in r.posts ensures p.id != sorted[i].id {
      var j :| i + 1 <= j < |sorted| && sorted[j] == p;
      assert PostId(sorted[i]) != PostId(sorted[j]);
    }
  }

  /** A cursor at the last sorted post gives an empty page with no next page. */
  lemma {:induction false} PostsAfterLast(sorted: seq<Post>, first: nat)
    requires |sorted| > 0 && Distinct(sorted, PostId) && sorted[|sorted| - 1].id != ""
    ensures PostsPage(sorted, first, Some(sorted[|sorted| - 1].id)) == PostsResult([], false)
  {
    PostStartAtMatch(sorted, |sorted| - 1);
  }

  /** Chaining the last post of a non-empty page as the next cursor starts exactly where the page ended. */
  lemma {:induction false} PostsNextStart(sorted: seq<Post>, first: nat, after: Option<string>)
    requires Distinct(sorted, PostId)
    requires var r := PostsPage(sorted, first, after); r.posts != [] && r.posts[|r.posts| - 1].id != ""
    ensures var r := PostsPage(sorted, first, after);
            PostStart(sorted, Some(r.posts[|r.posts| - 1].id)) == PostStart(sorted, after) + |r.posts|
  {
    var r := PostsPage(sorted, first, after);
    var start := PostStart(sorted, after);
    var last := start + |r.posts| - 1;
    assert r.posts[|r.posts| - 1] == sorted[last];
    PostStartAtMatch(sorted, last);
  }

  /**
   * Everything a client sees when it starts with no cursor and keeps passing the id of
   * the last post it received as the next cursor, until `hasNextPage` is false.
   */
  ghost function PostsWalk(sorted: seq<Post>, first: nat, after: Option<string>): seq<Post>
    requires Distinct(sorted, PostId)
    requires forall j :: 0 <= j < |sorted| ==> sorted[j].id != ""
    decreases |sorted| - PostStart(sorted, after)
  {
    var r := PostsPage(sorted, first, after);
    if !r.hasNextPage then r.posts
    else
      PostsNextStart(sorted, first, after);
      r.posts + PostsWalk(sorted, first, Some(r.posts[|r.posts| - 1].id))
  }

  /** One step of the walk: a page with a next page, followed by the walk from its last post. */
  lemma PostsWalkStep(sorted: seq<Post>, first: nat, after: Option<string>) returns (next: Option<string>)
    requires Distinct(sorted, PostId)
    requires forall j :: 0 <= j < |sorted| ==> sorted[j].id != ""
    requires PostsPage(sorted, first, after).hasNextPage
    ensures var r := PostsPage(sorted, first, after);
            && r.posts != []
            && next == Some(r.posts[|r.posts| - 1].id)
            && PostStart(sorted, next) == PostStart(sorted, after) + |r.posts|
            && r.posts == sorted[PostStart(sorted, after)..PostStart(sorted, next)]
            && PostsWalk(sorted, first, after) == r.posts + PostsWalk(sorted, first, next)
  {
    var r := PostsPage(sorted, first, after);
    PostsNextStart(sorted, first, after);
    next := Some(r.posts[|r.posts| - 1].id);
  }

  /** A suffix splits at any later index. */
  lemma SuffixSplit<T>(s: seq<T>, i: nat, j: nat)
    requires i <= j <= |s|
    ensures s[i..] == s[i..j] + s[j..]
  {
  }

  /** The walk visits every post after the starting cursor exactly once, in sorted order. */
  lemma {:induction false} PostsWalkFrom(sorted: seq<Post>, first: nat, after: Option<string>)
    requires Distinct(sorted, PostId)
    requires forall j :: 0 <= j < |sorted| ==> sorted[j].id != ""
    ensures PostsWalk(sorted, first, after) == sorted[PostStart(sorted, after)..]
    decreases |sorted| - PostStart(sorted, after)
  {
    var r := PostsPage(sorted, first, after);
    var start := PostStart(sorted, after);
    if r.hasNextPage {
      var next := PostsWalkStep(sorted, first, after);
      PostsWalkFrom(sorted, first, next);
      SuffixSplit(sorted, start, PostStart(sorted, next));
    } else {
      assert start + |r.posts| == |sorted|;
    }
  }

  /** Pagination exhaustion: starting from no cursor, the walk returns the whole sorted listing. */
  lemma PostsWalkVisitsAll(sorted: seq<Post>, first: nat)
    requires Distinct(sorted, PostId)
    requires forall j :: 0 <= j < |sorted| ==> sorted[j].id != ""
    ensures PostsWalk(sorted, first, None) == sorted
  {
    PostsWalkFrom(sorted, first, None);
  }

  // ------------------------------------------------------------- comments

  /** Start index of a comment page: a nil cursor starts at 0; any other cursor, "" too, is searched. */
  function CommentStart(sorted: seq<Comment>, after: Option<string>): (k: nat)
    ensures k <= |sorted|
    ensures 0 < k ==> after.Some? && sorted[k - 1].id == after.value
  {
    if after.None? then 0 else StartAfter(sorted, CommentId, after.value)
  }

  /** The page a comment listing returns from the sorted comments: `end = min(start + first, len)`. */
  function CommentsPage(sorted: seq<Comment>, first: nat, after: Option<string>): (r: CommentsResult)
    ensures |r.comments| <= first && |r.comments| <= |sorted|
    ensures r.hasNextPage ==> |r.comments| == first
  {
    var start := CommentStart(sorted, after);
    var end := if start + first > |sorted| then |sorted| else start + first;
    CommentsResult(sorted[start..end], end < |sorted|)
  }

  lemma CommentStartRules(sorted: seq<Comment>, after: Option<string>)
    ensures after.None? ==> CommentStart(sorted, after) == 0
    ensures (after.Some? && forall j :: 0 <= j < |sorted| ==> sorted[j].id != after.value)
            ==> CommentStart(sorted, after) == 0
    ensures CommentStart(sorted, after) <= |sorted|
  {
  }

  /** A cursor found at sorted index i starts the page at i + 1, including an empty id. */
  lemma {:induction false} CommentStartAtMatch(sorted: seq<Comment>, i: nat)
    requires i < |sorted| && Distinct(sorted, CommentId)
    ensures CommentStart(sorted, Some(sorted[i].id)) == i + 1
  {
    assert CommentId(sorted[i]) == sorted[i].id;
  }

  /** The page holds min(first, len - start) comments from `start`, and `hasNextPage` is `end < len`. */
  lemma CommentsPageWindow(sorted: seq<Comment>, first: nat, after: Option<string>)
    ensures var r := CommentsPage(sorted, first, after);
            var start := CommentStart(sorted, after);
            && |r.comments| == (if first < |sorted| - start then first else |sorted| - start)
            && r.comments == sorted[start..start + |r.comments|]
            && (r.hasNextPage <==> start + |r.comments| < |sorted|)
  {
  }

  /** `first == 0` yields an empty page, which has a next page whenever comments remain. */
  lemma CommentsFirstZero(sorted: seq<Comment>, after: Option<string>)
    ensures CommentsPage(sorted, 0, after)
            == CommentsResult([], CommentStart(sorted, after) < |sorted|)
  {
  }

  /** An unknown cursor resets to the start. */
  lemma CommentsUnknownCursor(sorted: seq<Comment>, first: nat, cursor: string)
    requires forall j :: 0 <= j < |sorted| ==> sorted[j].id != cursor
    ensures CommentsPage(sorted, first, Some(cursor)) == CommentsPage(sorted, first, None)
  {
  }

  /** The comment at a found cursor is not on the page after it. */
  lemma {:induction false} CommentsCursorExcluded(sorted: seq<Comment>, first: nat, i: nat)
    requires i < |sorted| && Distinct(sorted, CommentId)
    ensures forall c :: c in CommentsPage(sorted, first, Some(sorted[i].id)).comments ==> c.id != sorted[i].id
  {
    CommentStartAtMatch(sorted, i);
    var r := CommentsPage(sorted, first, Some(sorted[i].id));
    forall c | c in r.comments ensures c.id != sorted[i].id {
      var j :| i + 1 <= j < |sorted| && sorted[j] == c;
      assert CommentId(sorted[i]) != CommentId(sorted[j]);
    }
  }

  /** A cursor at the last sorted comment gives an empty page with no next page. */
  lemma {:induction false} CommentsAfterLast(sorted: seq<Comment>, first: nat)
    requires |sorted| > 0 && Distinct(sorted, CommentId)
    ensures CommentsPage(sorted, first, Some(sorted[|sorted| - 1].id)) == CommentsResult([], false)
  {
    CommentStartAtMatch(sorted, |sorted| - 1);
  }

  /** Chaining the last comment of a non-empty page as the next cursor starts exactly where the page ended. */
  lemma {:induction false} CommentsNextStart(sorted: seq<Comment>, first: nat, after: Option<string>)
    requires Distinct(sorted, CommentId)
    requires CommentsPage(sorted, first, after).comments != []
    ensures var r := CommentsPage(sorted, first, after);
            CommentStart(sorted, Some(r.comments[|r.comments| - 1].id))
              == CommentStart(sorted, after) + |r.comments|
  {
    var r := CommentsPage(sorted, first, after);
    var last := CommentStart(sorted, after) + |r.comments| - 1;
    assert r.comments[|r.comments| - 1] == sorted[last];
    CommentStartAtMatch(sorted, last);
  }

  /** The comments a client sees when it chains the last comment's id as the next cursor. */
  ghost function CommentsWalk(sorted: seq<Comment>, first: nat, after: Option<string>): seq<Comment>
    requires Distinct(sorted, CommentId) && first >= 1
    decreases |sorted| - CommentStart(sorted, after)
  {
    var r := CommentsPage(sorted, first, after);
    if !r.hasNextPage then r.comments
    else
      CommentsNextStart(sorted, first, after);
      r.comments + CommentsWalk(sorted, first, Some(r.comments[|r.comments| - 1].id))
  }

  /** One step of the walk: a page with a next page, followed by the walk from its last comment. */
  lemma CommentsWalkStep(sorted: seq<Comment>, first: nat, after: Option<string>) returns (next: Option<string>)
    requires Distinct(sorted, CommentId) && first >= 1
    requires CommentsPage(sorted, first, after).hasNextPage
    ensures var r := CommentsPage(sorted, first, after);
            && r.comments != []
            && next == Some(r.comments[|r.comments| - 1].id)
            && CommentStart(sorted, next) == CommentStart(sorted, after) + |r.comments|
            && r.comments == sorted[CommentStart(sorted, after)..CommentStart(sorted, next)]
            && CommentsWalk(sorted, first, after) == r.comments + CommentsWalk(sorted, first, next)
  {
    var r := CommentsPage(sorted, first, after);
    CommentsNextStart(sorted, first, after);
    next := Some(r.comments[|r.comments| - 1].id);
  }

  lemma {:induction false} CommentsWalkFrom(sorted: seq<Comment>, first: nat, after: Option<string>)
    requires Distinct(sorted, CommentId) && first >= 1
    ensures CommentsWalk(sorted, first, after) == sorted[CommentStart(sorted, after)..]
    decreases |sorted| - CommentStart(sorted, after)
  {
    var r := CommentsPage(sorted, first, after);
    var start := CommentStart(sorted, after);
    if r.hasNextPage {
      var next := CommentsWalkStep(sorted, first, after);
      CommentsWalkFrom(sorted, first, next);
      SuffixSplit(sorted, start, CommentStart(sorted, next));
    } else {
      CommentsPageWindow(sorted, first, after);
    }
  }

  /** Chaining from no cursor with `first >= 1` returns every comment once, oldest first. */
  lemma CommentsWalkVisitsAll(sorted: seq<Comment>, first: nat)
    requires Distinct(sorted, CommentId) && first >= 1
    ensures CommentsWalk(sorted, first, None) == sorted
  {
    CommentsWalkFrom(sorted, first, None);
  }
}
