/**
 * The GraphQL resolvers of the older generation (app/graph/schema.resolvers.go) over the
 * in-memory stores: the listing fields copy the store's edges and derive the page info;
 * the two mutations are gated on the validators. Generated ids and the clock are inputs.
 */
module Resolvers {
  import opened Types
  import opened Timestamps
  import opened Paging
  import Listing
  import AppPosts
  import AppComments
  import opened Validator

  /** The page size used when a query gives no `first`. */
  const DefaultPageSize := 10

  /** The page size a resolver passes on: the requested `first`, or 10 when none is given. */
  function PageSize(first: Option<nat>): (n: nat)
    ensures first.Some? ==> n == first.value
    ensures first.None? ==> n == 10
  {
    if first.Some? then first.value else DefaultPageSize
  }

  /** The page info of queryResolver.Posts: a previous page exactly when a cursor was given, cursors from the end edges. */
  function PostsPageInfo(hasNext: bool, after: Option<string>, edges: seq<PostEdge>): (p: PageInfo)
    ensures p.hasNextPage == hasNext
    ensures p.hasPreviousPage <==> after.Some?
    ensures edges == [] ==> p.startCursor == None && p.endCursor == None
    ensures edges != [] ==> p.startCursor == Some(edges[0].cursor) && p.endCursor == Some(edges[|edges| - 1].cursor)
  {
    if edges == [] then PageInfo(hasNext, after.Some?, None, None)
    else PageInfo(hasNext, after.Some?, Some(edges[0].cursor), Some(edges[|edges| - 1].cursor))
  }

  /** The page info of the comment listings: as for posts, but `hasPreviousPage` is never set. */
  function CommentsPageInfo(hasNext: bool, edges: seq<CommentEdge>): (p: PageInfo)
    ensures p.hasNextPage == hasNext && !p.hasPreviousPage
    ensures edges == [] ==> p.startCursor == None && p.endCursor == None
    ensures edges != [] ==> p.startCursor == Some(edges[0].cursor) && p.endCursor == Some(edges[|edges| - 1].cursor)
  {
    if edges == [] then PageInfo(hasNext, false, None, None)
    else PageInfo(hasNext, false, Some(edges[0].cursor), Some(edges[|edges| - 1].cursor))
  }

  /** The Posts copy loop: a slice of the same length, filled by index. */
  method CopyPostEdges(edges: seq<PostEdge>) returns (copy: seq<PostEdge>)
    ensures copy == edges
  {
    var a := new PostEdge[|edges|];
    for i := 0 to |edges|
      invariant a[..i] == edges[..i]
    {
      a[i] := PostEdge(edges[i].cursor, edges[i].node);
    }
    copy := a[..];
  }

  /** The Comments and Replies copy loop: appends each edge in turn. */
  method CopyCommentEdges(edges: seq<CommentEdge>) returns (copy: seq<CommentEdge>)
    ensures copy == edges
  {
    copy := [];
    for i := 0 to |edges|
      invariant copy == edges[..i]
    {
      copy := copy + [CommentEdge(edges[i].cursor, edges[i].node)];
    }
  }

  datatype CreatePostInput = CreatePostInput(title: string, content: string, author: string, allowComments: bool)

  datatype CreateCommentInput = CreateCommentInput(postId: string, parentId: Option<string>, author: string, content: string)

  /** The messages of a validation failure, one per error. */
  function ErrorTexts(errs: seq<ValidationError>): seq<string> {
    seq(|errs|, i requires 0 <= i < |errs| => ErrorText(errs[i]))
  }

  /** strings.Join. */
  function Join(parts: seq<string>, sep: string): (r: string)
    ensures parts == [] ==> r == []
    ensures |parts| == 1 ==> r == parts[0]
    ensures parts != [] ==> |parts[0]| <= |r| && r[..|parts[0]|] == parts[0]
  {
    if parts == [] then []
    else if |parts| == 1 then parts[0]
    else parts[0] + sep + Join(parts[1..], sep)
  }

  /** Joining one more part appends the separator and that part: every part is kept, in order. */
  lemma {:induction false} JoinSnoc(parts: seq<string>, sep: string, p: string)
    requires parts != []
    ensures Join(parts + [p], sep) == Join(parts, sep) + sep + p
    decreases |parts|
  {
    if |parts| == 1 {
      assert (parts + [p])[1..] == [p];
    } else {
      assert (parts + [p])[1..] == parts[1..] + [p];
      JoinSnoc(parts[1..], sep, p);
    }
  }

  /** The joined messages of a list grow by the separator and the last error's text. */
  lemma MessagesSnoc(errs: seq<ValidationError>)
    ensures |errs| >= 2 ==> Join(ErrorTexts(errs), "; ")
                            == Join(ErrorTexts(errs[..|errs| - 1]), "; ") + "; " + ErrorText(errs[|errs| - 1])
  {
    if |errs| >= 2 {
      var init := errs[..|errs| - 1];
      assert ErrorTexts(errs) == ErrorTexts(init) + [ErrorText(errs[|errs| - 1])];
      JoinSnoc(ErrorTexts(init), "; ", ErrorText(errs[|errs| - 1]));
    }
  }

  /** The text of the error a mutation returns when validation fails. */
  function ValidationSummary(errs: seq<ValidationError>): (s: string)
    ensures |s| >= |"validation errors: "| && s[..|"validation errors: "|] == "validation errors: "
    ensures errs == [] ==> s == "validation errors: "
    ensures |errs| == 1 ==> s == "validation errors: " + ErrorText(errs[0])
    ensures |errs| >= 2 ==> s == ValidationSummary(errs[..|errs| - 1]) + "; " + ErrorText(errs[|errs| - 1])
  {
    MessagesSnoc(errs);
    "validation errors: " + Join(ErrorTexts(errs), "; ")
  }

  /**
   * Every comment belongs to a stored post and a reply's parent is a stored comment of the
   * same post: what the comment validator guards on behalf of the stores.
   */
  ghost predicate ThreadsConsistent(posts: map<string, Post>, comments: map<string, Comment>) {
    forall k :: k in comments ==>
      && comments[k].postId in posts
      && (comments[k].parentId.Some? ==> comments[k].parentId.value in comments
                                         && comments[comments[k].parentId.value].postId == comments[k].postId)
  }

  /** The comment CreateComment stores for an input. */
  function NewComment(input: CreateCommentInput, id: string, now: string): (c: Comment)
    ensures c.id == id && c.createdAt == now
    ensures c.postId == input.postId && c.parentId == input.parentId
    ensures c.author == input.author && c.content == input.content
  {
    Comment(id, input.postId, input.parentId, input.author, input.content, now)
  }

  /** The post CreatePost stores for an input. */
  function NewPost(input: CreatePostInput, id: string, now: string): (p: Post)
    ensures p.id == id && p.createdAt == now
    ensures p.title == input.title && p.content == input.content && p.author == input.author
    ensures p.allowComments == input.allowComments
  {
    Post(id, input.title, input.content, input.author, now, input.allowComments)
  }

  /** A comment the validator accepts, stored under a fresh id, keeps every thread consistent. */
  lemma AcceptedCommentKeepsThreads(posts: map<string, Post>, comments: map<string, Comment>,
                                    input: CreateCommentInput, id: string, now: string)
    requires ThreadsConsistent(posts, comments) && id !in comments
    requires ValidateCreateCommentInput(posts, comments, input.author, input.content, input.postId, input.parentId) == []
    ensures ThreadsConsistent(posts, comments[id := NewComment(input, id, now)])
  {
    var c := NewComment(input, id, now);
    var after := comments[id := c];
    forall k | k in after
      ensures after[k].postId in posts
      ensures after[k].parentId.Some? ==> after[k].parentId.value in after
                                          && after[after[k].parentId.value].postId == after[k].postId
    {
      if k != id {
        assert after[k] == comments[k];
        if comments[k].parentId.Some? {
          var p := comments[k].parentId.value;
          assert p in comments && p != id;
          assert after[p] == comments[p];
        }
      } else if c.parentId.Some? {
        assert CommentInputOk(posts, comments, input.author, input.content, input.postId, input.parentId);
        assert c.parentId.value in comments && c.parentId.value != id;
      }
    }
  }

  /** A stored post never breaks a thread: posts are only added or replaced. */
  lemma NewPostKeepsThreads(posts: map<string, Post>, comments: map<string, Comment>, post: Post)
    requires ThreadsConsistent(posts, comments)
    ensures ThreadsConsistent(posts[post.id := post], comments)
  {
  }

  /**
   * The older store leaves every cursor empty, so the `endCursor` of a page is `""`, which
   * the post listing ignores: following it yields the first page again.
   */
  lemma PostsEndCursorRestarts(c: PostConnection, hasNext: bool, after: Option<string>,
                               sorted: seq<Post>, first: nat)
    requires c.edges != [] && forall i :: 0 <= i < |c.edges| ==> c.edges[i].cursor == ""
    requires c.pageInfo == PostsPageInfo(hasNext, after, c.edges)
    ensures c.pageInfo.endCursor == Some("")
    ensures PostsPage(sorted, first, c.pageInfo.endCursor) == PostsPage(sorted, first, None)
  {
    PostsEmptyCursorIgnored(sorted, first);
  }

  /**
   * For comments the empty `endCursor` is searched for; since no comment has the empty
   * id, it is not found and the listing restarts too.
   */
  lemma CommentsEndCursorRestarts(c: CommentConnection, hasNext: bool, sorted: seq<Comment>, first: nat)
    requires c.edges != [] && forall i :: 0 <= i < |c.edges| ==> c.edges[i].cursor == ""
    requires c.pageInfo == CommentsPageInfo(hasNext, c.edges)
    requires forall j :: 0 <= j < |sorted| ==> sorted[j].id != ""
    ensures c.pageInfo.endCursor == Some("")
    ensures CommentsPage(sorted, first, c.pageInfo.endCursor) == CommentsPage(sorted, first, None)
  {
    CommentsUnknownCursor(sorted, first, "");
  }

  class Resolver {
    const postStore: AppPosts.PostStore
    const commentStore: AppComments.CommentStore

    ghost predicate Valid()
      reads postStore, commentStore
    {
      postStore.Valid() && commentStore.Valid()
    }

    constructor (postStore: AppPosts.PostStore, commentStore: AppComments.CommentStore)
      ensures this.postStore == postStore && this.commentStore == commentStore
    {
      this.postStore := postStore;
      this.commentStore := commentStore;
    }

    /** queryResolver.Posts: the store's page under the default size, with the derived page info. */
    method Posts(first: Option<nat>, after: Option<string>, parse: Parser)
      returns (r: Result<PostConnection, Error>, ghost sorted: seq<Post>)
      requires Valid()
      ensures r.Failure? <==> exists k :: k in postStore.posts && !ValidTime(parse, postStore.posts[k].createdAt)
      ensures r.Failure? ==> r.error.Wrapped? && r.error.context == "get posts" && r.error.inner.InvalidCreatedAt?
      ensures r.Success? ==> && multiset(sorted) == multiset(postStore.posts.Values)
                             && NewestFirst(sorted, parse)
                             && var page := PostsPage(sorted, PageSize(first), after);
                                AppPosts.UnsetCursorEdges(r.value.edges, page.posts)
                                && r.value.pageInfo == PostsPageInfo(page.hasNextPage, after, r.value.edges)
    {
      var result;
      result, sorted := postStore.GetPosts(PageSize(first), after, parse);
      if result.Failure? {
        return Failure(Wrapped("get posts", result.error)), sorted;
      }
      var postEdges := CopyPostEdges(result.value.edges);
      r := Success(PostConnection(postEdges, PostsPageInfo(result.value.pageInfo.hasNextPage, after, postEdges)));
    }

    /** postResolver.Comments: the post's comment page, errors passed through unchanged. */
    method Comments(post: Post, first: Option<nat>, after: Option<string>, parse: Parser)
      returns (r: Result<CommentConnection, Error>, ghost sorted: seq<Comment>)
      requires Valid()
      ensures r.Failure? <==> exists c :: c in commentStore.comments.Values && c.postId == post.id
                                          && !ValidTime(parse, c.createdAt)
      ensures r.Failure? ==> r.error == DateParse
      ensures r.Success? ==> && multiset(sorted) == multiset(Listing.PostComments(commentStore.comments, post.id))
                             && OldestFirst(sorted, parse)
                             && var page := CommentsPage(sorted, PageSize(first), after);
                                AppComments.UnsetCursorEdges(r.value.edges, page.comments)
                                && r.value.pageInfo == CommentsPageInfo(page.hasNextPage, r.value.edges)
    {
      var result;
      result, sorted := commentStore.GetCommentsForPost(post.id, PageSize(first), after, parse);
      if result.Failure? {
        return Failure(result.error), sorted;
      }
      var edges := CopyCommentEdges(result.value.edges);
      r := Success(CommentConnection(edges, CommentsPageInfo(result.value.pageInfo.hasNextPage, edges)));
    }

    /** commentResolver.Replies: the comment's reply page, errors passed through unchanged. */
    method Replies(comment: Comment, first: Option<nat>, after: Option<string>, parse: Parser)
      returns (r: Result<CommentConnection, Error>, ghost sorted: seq<Comment>)
      requires Valid()
      ensures r.Failure? <==> exists c :: c in commentStore.comments.Values && c.parentId == Some(comment.id)
                                          && !ValidTime(parse, c.createdAt)
      ensures r.Failure? ==> r.error == DateParse
      ensures r.Success? ==> && multiset(sorted) == multiset(Listing.Replies(commentStore.comments, comment.id))
                             && OldestFirst(sorted, parse)
                             && var page := CommentsPage(sorted, PageSize(first), after);
                                AppComments.UnsetCursorEdges(r.value.edges, page.comments)
                                && r.value.pageInfo == CommentsPageInfo(page.hasNextPage, r.value.edges)
    {
      var result;
      result, sorted := commentStore.GetRepliesForComment(comment.id, PageSize(first), after, parse);
      if result.Failure? {
        return Failure(result.error), sorted;
      }
      var edges := CopyCommentEdges(result.value.edges);
      r := Success(CommentConnection(edges, CommentsPageInfo(result.value.pageInfo.hasNextPage, edges)));
    }

    /** The message loop of both mutations: one `Error()` text per validation error, in order. */
    static method CollectMessages(errs: seq<ValidationError>) returns (messages: seq<string>)
      ensures messages == ErrorTexts(errs)
    {
      messages := [];
      for i := 0 to |errs|
        invariant |messages| == i
        invariant forall j :: 0 <= j < i ==> messages[j] == ErrorText(errs[j])
      {
        messages := messages + [ErrorText(errs[i])];
      }
    }

    /**
     * mutationResolver.CreatePost: a rejected input leaves the store alone and reports every
     * problem; an accepted one is stored once, under the generated id, with the given time.
     */
    method CreatePost(input: CreatePostInput, id: string, now: string) returns (r: Result<Post, Error>)
      requires Valid()
      modifies postStore
      ensures Valid()
      ensures var errs := ValidateCreatePostInput(input.title, input.author, input.content);
              && (errs != [] ==> r == Failure(ValidationFailed(ValidationSummary(errs)))
                                 && postStore.posts == old(postStore.posts))
              && (errs == [] ==> r == Success(NewPost(input, id, now))
                                 && postStore.posts == old(postStore.posts)[id := NewPost(input, id, now)])
      ensures commentStore.comments == old(commentStore.comments)
    {
      var errs := ValidateCreatePostInput(input.title, input.author, input.content);
      if |errs| > 0 {
        var messages := CollectMessages(errs);
        return Failure(ValidationFailed("validation errors: " + Join(messages, "; ")));
      }
      var post := NewPost(input, id, now);
      postStore.AddPost(post);
      return Success(post);
    }

    /**
     * mutationResolver.CreateComment: validated against the current stores; a rejected
     * input leaves the store alone, an accepted one is stored once under the generated id.
     */
    method CreateComment(input: CreateCommentInput, id: string, now: string) returns (r: Result<Comment, Error>)
      requires Valid()
      modifies commentStore
      ensures Valid()
      ensures var errs := ValidateCreateCommentInput(postStore.posts, old(commentStore.comments),
                                                     input.author, input.content, input.postId, input.parentId);
              && (errs != [] ==> r == Failure(ValidationFailed(ValidationSummary(errs)))
                                 && commentStore.comments == old(commentStore.comments))
              && (errs == [] ==> r == Success(NewComment(input, id, now))
                                 && commentStore.comments == old(commentStore.comments)[id := NewComment(input, id, now)])
      ensures postStore.posts == old(postStore.posts)
    {
      var errs := ValidateCreateCommentInput(postStore.posts, commentStore.comments,
                                             input.author, input.content, input.postId, input.parentId);
      if |errs| > 0 {
        var messages := CollectMessages(errs);
        return Failure(ValidationFailed("validation errors: " + Join(messages, "; ")));
      }
      var comment := NewComment(input, id, now);
      commentStore.AddComment(comment);
      return Success(comment);
    }
  }
}
