/**
 * The older generation's in-memory post store (app/pkg/data/in-memory/posts.go). The
 * package-level `posts` map becomes the field of a store object.
 */
module AppPosts {
  import opened Types
  import opened Timestamps
  import opened Paging
  import Listing

  /** The edges this store builds: one per page post, in page order, with `Cursor` left empty. */
  ghost predicate UnsetCursorEdges(edges: seq<PostEdge>, posts: seq<Post>) {
    |edges| == |posts| && forall i :: 0 <= i < |posts| ==> edges[i] == PostEdge("", posts[i])
  }

  /** What a successful GetPosts returns for the store's posts in the order `sorted`. */
  ghost predicate IsPageConnection(c: PostConnection, sorted: seq<Post>, first: nat, after: Option<string>) {
    var page := PostsPage(sorted, first, after);
    UnsetCursorEdges(c.edges, page.posts) && c.pageInfo == StorePageInfo(page.hasNextPage)
  }

  /** The anonymous edge builder inside GetPosts: appends one edge per post, setting only `Node`. */
  method BuildEdges(posts: seq<Post>) returns (edges: seq<PostEdge>)
    ensures |edges| == |posts|
    ensures forall i :: 0 <= i < |posts| ==> edges[i].node == posts[i] && edges[i].cursor == ""
  {
    edges := [];
    for i := 0 to |posts|
      invariant |edges| == i
      invariant forall j :: 0 <= j < i ==> edges[j] == PostEdge("", posts[j])
    {
      edges := edges + [PostEdge("", posts[i])];
    }
  }

  class PostStore {
    var posts: map<string, Post>

    /** Every post sits under its own id: the only writer is AddPost. */
    ghost predicate Valid()
      reads this
    {
      KeyedBy(posts, PostId)
    }

    constructor ()
      ensures Valid() && posts == map[]
    {
      posts := map[];
    }

    /** Point lookup: the stored post, or a not-found error naming the id. */
    method GetPostByID(id: string) returns (r: Result<Post, Error>)
      ensures id in posts ==> r == Success(posts[id])
      ensures id !in posts ==> r == Failure(PostNotFound(id))
    {
      if id !in posts {
        return Failure(PostNotFound(id));
      }
      return Success(posts[id]);
    }

    /**
     * The paginated listing: every stored post is checked, then sorted newest first, the
     * cursor located, `first` clamped, and the window returned as edges.
     * `sorted` is the order the (unordered) map iteration and the sort produced.
     */
    method GetPosts(first: nat, after: Option<string>, parse: Parser)
      returns (r: Result<PostConnection, Error>, ghost sorted: seq<Post>)
      requires Valid()
      ensures r.Failure? <==> exists k :: k in posts && !ValidTime(parse, posts[k].createdAt)
      ensures r.Failure? ==> r.error.InvalidCreatedAt? && r.error.postId in posts
                             && !ValidTime(parse, posts[r.error.postId].createdAt)
      ensures r.Success? ==> && multiset(sorted) == multiset(posts.Values)
                             && NewestFirst(sorted, parse)
                             && IsPageConnection(r.value, sorted, first, after)
    {
      var result;
      result, sorted := Listing.ListPosts(posts, first, after, parse);
      if result.Failure? {
        return Failure(result.error), sorted;
      }
      var edges := BuildEdges(result.value.posts);
      r := Success(PostConnection(edges, StorePageInfo(result.value.hasNextPage)));
    }

    /** Insert by id: overwrites an existing entry and leaves every other key alone. */
    method AddPost(post: Post)
      requires Valid()
      modifies this
      ensures Valid()
      ensures posts == old(posts)[post.id := post]
    {
      posts := posts[post.id := post];
    }
  }
}
