/**
 * The older generation's in-memory comment store (app/pkg/data/in-memory/comments.go).
 * The package-level `comments` map becomes the field of a store object.
 */
module AppComments {
  import opened Types
  import opened Timestamps
  import opened Paging
  import Listing

  /** The edges this store builds: one per page comment, in page order, with `Cursor` left empty. */
  ghost predicate UnsetCursorEdges(edges: seq<CommentEdge>, comments: seq<Comment>) {
    |edges| == |comments| && forall i :: 0 <= i < |comments| ==> edges[i] == CommentEdge("", comments[i])
  }

  /** What a successful comment listing returns for the selected comments in the order `sorted`. */
  ghost predicate IsPageConnection(c: CommentConnection, sorted: seq<Comment>, first: nat, after: Option<string>) {
    var page := CommentsPage(sorted, first, after);
    UnsetCursorEdges(c.edges, page.comments) && c.pageInfo == StorePageInfo(page.hasNextPage)
  }

  /** convertToCommentEdges: fills a slice of the same length, edge i holding comment i and no cursor. */
  method ConvertToCommentEdges(comments: seq<Comment>) returns (edges: seq<CommentEdge>)
    ensures |edges| == |comments|
    ensures forall i :: 0 <= i < |comments| ==> edges[i].node == comments[i] && edges[i].cursor == ""
  {
    var a := new CommentEdge[|comments|];
    for i := 0 to |comments|
      invariant forall j :: 0 <= j < i ==> a[j] == CommentEdge("", comments[j])
    {
      a[i] := CommentEdge("", comments[i]);
    }
    edges := a[..];
  }

  class CommentStore {
    var comments: map<string, Comment>

    /** Every comment sits under its own id: the only writer is AddComment. */
    ghost predicate Valid()
      reads this
    {
      KeyedBy(comments, CommentId)
    }

    constructor ()
      ensures Valid() && comments == map[]
    {
      comments := map[];
    }

    /** Point lookup: the stored comment, or a not-found error naming the id. */
    method GetCommentByID(id: string) returns (r: Result<Comment, Error>)
      ensures id in comments ==> r == Success(comments[id])
      ensures id !in comments ==> r == Failure(CommentNotFound(id))
    {
      if id !in comments {
        return Failure(CommentNotFound(id));
      }
      return Success(comments[id]);
    }

    /**
     * The comments of one post, oldest first, paginated. Only comments of that post are
     * looked at, so only their dates can make the call fail.
     */
    method GetCommentsForPost(postId: string, first: nat, after: Option<string>, parse: Parser)
      returns (r: Result<CommentConnection, Error>, ghost sorted: seq<Comment>)
      requires Valid()
      ensures r.Failure? <==> exists c :: c in comments.Values && c.postId == postId && !ValidTime(parse, c.createdAt)
      ensures r.Failure? ==> r.error == DateParse
      ensures r.Success? ==> && multiset(sorted) == multiset(Listing.PostComments(comments, postId))
                             && OldestFirst(sorted, parse)
                             && IsPageConnection(r.value, sorted, first, after)
    {
      var result;
      result, sorted := Listing.ListCommentsForPost(comments, postId, first, after, parse);
      if result.Failure? {
        return Failure(result.error), sorted;
      }
      var edges := ConvertToCommentEdges(result.value.comments);
      r := Success(CommentConnection(edges, StorePageInfo(result.value.hasNextPage)));
    }

    /** The replies to one comment (a present parent link equal to `parentID`), oldest first, paginated. */
    method GetRepliesForComment(parentId: string, first: nat, after: Option<string>, parse: Parser)
      returns (r: Result<CommentConnection, Error>, ghost sorted: seq<Comment>)
      requires Valid()
      ensures r.Failure? <==> exists c :: c in comments.Values && c.parentId == Some(parentId)
                                          && !ValidTime(parse, c.createdAt)
      ensures r.Failure? ==> r.error == DateParse
      ensures r.Success? ==> && multiset(sorted) == multiset(Listing.Replies(comments, parentId))
                             && OldestFirst(sorted, parse)
                             && IsPageConnection(r.value, sorted, first, after)
    {
      var result;
      result, sorted := Listing.ListReplies(comments, parentId, first, after, parse);
      if result.Failure? {
        return Failure(result.error), sorted;
      }
      var edges := ConvertToCommentEdges(result.value.comments);
      r := Success(CommentConnection(edges, StorePageInfo(result.value.hasNextPage)));
    }

    /** Insert by id: overwrites an existing entry and leaves every other key alone. */
    method AddComment(comment: Comment)
      requires Valid()
      modifies this
      ensures Valid()
      ensures comments == old(comments)[comment.id := comment]
    {
      comments := comments[comment.id := comment];
    }
  }
}
