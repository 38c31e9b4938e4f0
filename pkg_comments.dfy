/**
 * The newer generation's in-memory comments (pkg/data/in-memory/comments.go): package
 * functions over a package-level map, here the methods of one table object.
 */
module PkgComments {
  import opened Types
  import opened Timestamps
  import opened Paging
  import Listing

  class CommentTable {
    var comments: map<string, Comment>

    /** Every comment sits under its own id: the only writer is AddComment. */
    ghost predicate Valid()
      reads this
    {
      KeyedBy(comments, CommentId)
    }

    constructor ()
      ensures Valid() && comments == map[]
    {
      comments := map[];
    }

    /** Point lookup: the stored comment, or a not-found error naming the id. */
    method GetCommentByID(id: string) returns (r: Result<Comment, Error>)
      ensures id in comments ==> r == Success(comments[id])
      ensures id !in comments ==> r == Failure(CommentNotFound(id))
    {
      if id !in comments {
        return Failure(CommentNotFound(id));
      }
      return Success(comments[id]);
    }

    /** The comments of one post, oldest first, returned as comments plus `HasNextPage`. */
    method GetCommentsForPost(postId: string, first: nat, after: Option<string>, parse: Parser)
      returns (r: Result<CommentsResult, Error>, ghost sorted: seq<Comment>)
      requires Valid()
      ensures r.Failure? <==> exists c :: c in comments.Values && c.postId == postId && !ValidTime(parse, c.createdAt)
      ensures r.Failure? ==> r.error == DateParse
      ensures r.Success? ==> && multiset(sorted) == multiset(Listing.PostComments(comments, postId))
                             && OldestFirst(sorted, parse)
                             && r.value == CommentsPage(sorted, first, after)
    {
      r, sorted := Listing.ListCommentsForPost(comments, postId, first, after, parse);
    }

    /** Insert by id: overwrites an existing entry and changes nothing else. */
    method AddComment(comment: Comment)
      requires Valid()
      modifies this
      ensures Valid()
      ensures comments == old(comments)[comment.id := comment]
    {
      comments := comments[comment.id := comment];
    }
  }
}
