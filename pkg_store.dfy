/**
 * The newer generation's InMemoryStore (pkg/data/in-memory/inmemory_store.go): the
 * interface adapter over the package functions, turning results into Relay edges whose
 * cursor is the node's id.
 */
module PkgStore {
  import opened Types
  import opened Timestamps
  import opened Paging
  import Listing
  import PkgPosts
  import PkgComments

  /** Edges one per node, in order, each with `Cursor == Node.ID`. */
  ghost predicate IdCursorPostEdges(edges: seq<PostEdge>, posts: seq<Post>) {
    |edges| == |posts| && forall i :: 0 <= i < |posts| ==> edges[i] == PostEdge(posts[i].id, posts[i])
  }

  ghost predicate IdCursorCommentEdges(edges: seq<CommentEdge>, comments: seq<Comment>) {
    |edges| == |comments| && forall i :: 0 <= i < |comments| ==> edges[i] == CommentEdge(comments[i].id, comments[i])
  }

  /** The GetPosts adapter body: an error passes through with no connection; otherwise one edge per post. */
  method ToPostConnection(result: Result<PostsResult, Error>) returns (r: Result<PostConnection, Error>)
    ensures result.Failure? ==> r == Failure(result.error)
    ensures result.Success? ==> && r.Success?
                                && |r.value.edges| == |result.value.posts|
                                && (forall i :: 0 <= i < |result.value.posts| ==>
                                      r.value.edges[i].node == result.value.posts[i]
                                      && r.value.edges[i].cursor == r.value.edges[i].node.id)
                                && r.value.pageInfo == StorePageInfo(result.value.hasNextPage)
  {
    if result.Failure? {
      return Failure(result.error);
    }
    var postEdges: seq<PostEdge> := [];
    for i := 0 to |result.value.posts|
      invariant IdCursorPostEdges(postEdges, result.value.posts[..i])
    {
      var post := result.value.posts[i];
      postEdges := postEdges + [PostEdge(post.id, post)];
    }
    assert result.value.posts[..|result.value.posts|] == result.value.posts;
    r := Success(PostConnection(postEdges, StorePageInfo(result.value.hasNextPage)));
  }

  /**
   * The body of both comment adapters (GetCommentsForPost and GetRepliesForComment): an
   * error passes through with no connection; otherwise one edge per comment.
   */
  method ToCommentConnection(result: Result<CommentsResult, Error>) returns (r: Result<CommentConnection, Error>)
    ensures result.Failure? ==> r == Failure(result.error)
    ensures result.Success? ==> && r.Success?
                                && |r.value.edges| == |result.value.comments|
                                && (forall i :: 0 <= i < |result.value.comments| ==>
                                      r.value.edges[i].node == result.value.comments[i]
                                      && r.value.edges[i].cursor == r.value.edges[i].node.id)
                                && r.value.pageInfo == StorePageInfo(result.value.hasNextPage)
  {
    if result.Failure? {
      return Failure(result.error);
    }
    var commentEdges: seq<CommentEdge> := [];
    for i := 0 to |result.value.comments|
      invariant IdCursorCommentEdges(commentEdges, result.value.comments[..i])
    {
      var comment := result.value.comments[i];
      commentEdges := commentEdges + [CommentEdge(comment.id, comment)];
    }
    assert result.value.comments[..|result.value.comments|] == result.value.comments;
    r := Success(CommentConnection(commentEdges, StorePageInfo(result.value.hasNextPage)));
  }

  class InMemoryStore {
    /** The package-level state the adapter delegates to. */
    const postTable: PkgPosts.PostTable
    const commentTable: PkgComments.CommentTable

    ghost predicate Valid()
      reads postTable, commentTable
    {
      postTable.Valid() && commentTable.Valid()
    }

    constructor (postTable: PkgPosts.PostTable, commentTable: PkgComments.CommentTable)
      ensures this.postTable == postTable && this.commentTable == commentTable
    {
      this.postTable := postTable;
      this.commentTable := commentTable;
    }

    /** Delegates unchanged. */
    method GetPostByID(id: string) returns (r: Result<Post, Error>)
      ensures id in postTable.posts ==> r == Success(postTable.posts[id])
      ensures id !in postTable.posts ==> r == Failure(PostNotFound(id))
    {
      r := postTable.GetPostByID(id);
    }

    method GetPosts(first: nat, after: Option<string>, parse: Parser)
      returns (r: Result<PostConnection, Error>, ghost sorted: seq<Post>)
      requires Valid()
      ensures r.Failure? <==> exists k :: k in postTable.posts && !ValidTime(parse, postTable.posts[k].createdAt)
      ensures r.Failure? ==> r.error.InvalidCreatedAt? && r.error.postId in postTable.posts
                             && !ValidTime(parse, postTable.posts[r.error.postId].createdAt)
      ensures r.Success? ==> && multiset(sorted) == multiset(postTable.posts.Values)
                             && NewestFirst(sorted, parse)
                             && var page := PostsPage(sorted, first, after);
                                IdCursorPostEdges(r.value.edges, page.posts)
                                && r.value.pageInfo == StorePageInfo(page.hasNextPage)
    {
      var result;
      result, sorted := postTable.GetPosts(first, after, parse);
      r := ToPostConnection(result);
    }

    /** Adds through the package function and never reports an error. */
    method AddPost(post: Post) returns (err: Option<Error>)
      requires Valid()
      modifies postTable
      ensures Valid() && err == None
      ensures postTable.posts == old(postTable.posts)[post.id := post]
      ensures commentTable.comments == old(commentTable.comments)
    {
      postTable.AddPost(post);
      return None;
    }

    /** Delegates unchanged. */
    method GetCommentByID(id: string) returns (r: Result<Comment, Error>)
      ensures id in commentTable.comments ==> r == Success(commentTable.comments[id])
      ensures id !in commentTable.comments ==> r == Failure(CommentNotFound(id))
    {
      r := commentTable.GetCommentByID(id);
    }

    method GetCommentsForPost(postId: string, first: nat, after: Option<string>, parse: Parser)
      returns (r: Result<CommentConnection, Error>, ghost sorted: seq<Comment>)
      requires Valid()
      ensures r.Failure? <==> exists c :: c in commentTable.comments.Values && c.postId == postId
                                          && !ValidTime(parse, c.createdAt)
      ensures r.Failure? ==> r.error == DateParse
      ensures r.Success? ==> && multiset(sorted) == multiset(Listing.PostComments(commentTable.comments, postId))
                             && OldestFirst(sorted, parse)
                             && var page := CommentsPage(sorted, first, after);
                                IdCursorCommentEdges(r.value.edges, page.comments)
                                && r.value.pageInfo == StorePageInfo(page.hasNextPage)
    {
      var result;
      result, sorted := commentTable.GetCommentsForPost(postId, first, after, parse);
      r := ToCommentConnection(result);
    }

    /** Adds through the package function and never reports an error. */
    method AddComment(comment: Comment) returns (err: Option<Error>)
      requires Valid()
      modifies commentTable
      ensures Valid() && err == None
      ensures commentTable.comments == old(commentTable.comments)[comment.id := comment]
      ensures postTable.posts == old(postTable.posts)
    {
      commentTable.AddComment(comment);
      return None;
    }
  }
}
