/**
 * The newer generation's comment validator (pkg/validator/validator.go): the same checks
 * as the older one, with the lookups going straight to the in-memory package tables.
 */
module PkgValidator {
  import opened Types
  import opened Validator
  import PkgPosts
  import PkgComments

  /**
   * ValidateCreateCommentInput over the package tables. No errors means the input is
   * fit to store: author and content filled in, content within the byte limit, the post
   * present and, for a reply, the parent present in the same post.
   */
  function ValidateCreateCommentInput(postTable: PkgPosts.PostTable, commentTable: PkgComments.CommentTable,
                                      author: string, content: string, postId: string,
                                      parentId: Option<string>): (errs: seq<ValidationError>)
    reads postTable, commentTable
    ensures errs == [] ==> && !IsBlank(author) && !IsBlank(content)
                           && Utf8Length(content) <= MaxCommentBytes
                           && postId in postTable.posts
                           && (parentId.Some? ==> parentId.value in commentTable.comments
                                                  && commentTable.comments[parentId.value].postId == postId)
    ensures errs != [] ==> !CommentInputOk(postTable.posts, commentTable.comments, author, content, postId, parentId)
    ensures UnknownPost(postId) in errs <==> postId !in postTable.posts
  {
    CommentPostErrorsReported(postTable.posts, commentTable.comments, author, content, postId, parentId);
    Validator.ValidateCreateCommentInput(postTable.posts, commentTable.comments, author, content, postId, parentId)
  }
}
