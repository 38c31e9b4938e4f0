/** Entities and result envelopes shared by both generations of the service. */
module Types {

  datatype Option<+T> = None | Some(value: T)

  datatype Result<+T, +E> = Success(value: T) | Failure(error: E)

  /** A post as the store keeps it (model.Post). */
  datatype Post = Post(
    id: string,
    title: string,
    content: string,
    author: string,
    createdAt: string,
    allowComments: bool)

  /** A comment as the store keeps it (model.Comment); `parentId` is the optional reply link. */
  datatype Comment = Comment(
    id: string,
    postId: string,
    parentId: Option<string>,
    author: string,
    content: string,
    createdAt: string)

  datatype PostEdge = PostEdge(cursor: string, node: Post)

  datatype CommentEdge = CommentEdge(cursor: string, node: Comment)

  /** Relay page metadata; fields a producer does not set keep Go's zero values (false, nil). */
  datatype PageInfo = PageInfo(
    hasNextPage: bool,
    hasPreviousPage: bool,
    startCursor: Option<string>,
    endCursor: Option<string>)

  datatype PostConnection = PostConnection(edges: seq<PostEdge>, pageInfo: PageInfo)

  datatype CommentConnection = CommentConnection(edges: seq<CommentEdge>, pageInfo: PageInfo)

  /** What the in-memory listings of the newer generation return before they become edges. */
  datatype PostsResult = PostsResult(posts: seq<Post>, hasNextPage: bool)

  datatype CommentsResult = CommentsResult(comments: seq<Comment>, hasNextPage: bool)

  /** The errors the core produces, one constructor per place that builds an error. */
  datatype Error =
    | PostNotFound(id: string)            // no stored post under the id
    | CommentNotFound(id: string)         // no stored comment under the id
    | InvalidCreatedAt(postId: string)    // a stored post whose timestamp does not parse
    | DateParse                           // a stored comment whose timestamp does not parse
    | Wrapped(context: string, inner: Error)  // a resolver's context prefix around a store error
    | ValidationFailed(message: string)   // the joined validation messages of a rejected input

  /** The zero-value page info the stores fill in: only `hasNextPage` is set. */
  function StorePageInfo(hasNext: bool): PageInfo {
    PageInfo(hasNext, false, None, None)
  }
}

/** RFC 3339 parsing (time.Parse with time.RFC3339) is an abstract parameter of the model. */
module Timestamps {
  import opened Types

  /** A parser: `None` for text that is not an RFC 3339 timestamp, otherwise an instant on a totally ordered axis. */
  type Parser = string -> Option<int>

  predicate ValidTime(parse: Parser, s: string) {
    parse(s).Some?
  }

  /** The instant of a valid timestamp; invalid text gets 0, which only ever matters on paths that fail. */
  function Key(parse: Parser, s: string): int {
    if parse(s).Some? then parse(s).value else 0
  }

  /** Newest first: `CreatedAt` never increases along the sequence. */
  ghost predicate NewestFirst(s: seq<Post>, parse: Parser) {
    forall i, j :: 0 <= i < j < |s| ==> Key(parse, s[j].createdAt) <= Key(parse, s[i].createdAt)
  }

  /** Oldest first: `CreatedAt` never decreases along the sequence. */
  ghost predicate OldestFirst(s: seq<Comment>, parse: Parser) {
    forall i, j :: 0 <= i < j < |s| ==> Key(parse, s[i].createdAt) <= Key(parse, s[j].createdAt)
  }
}
