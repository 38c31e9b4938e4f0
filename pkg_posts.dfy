/**
 * The newer generation's in-memory posts (pkg/data/in-memory/posts.go): package functions
 * over a package-level map, here the methods of one table object.
 */
module PkgPosts {
  import opened Types
  import opened Timestamps
  import opened Paging
  import Listing

  class PostTable {
    var posts: map<string, Post>

    /** Every post sits under its own id: the only writer is AddPost. */
    ghost predicate Valid()
      reads this
    {
      KeyedBy(posts, PostId)
    }

    constructor ()
      ensures Valid() && posts == map[]
    {
      posts := map[];
    }

    /** Point lookup: the stored post, or a not-found error naming the id. */
    method GetPostByID(id: string) returns (r: Result<Post, Error>)
      ensures id in posts ==> r == Success(posts[id])
      ensures id !in posts ==> r == Failure(PostNotFound(id))
    {
      if id !in posts {
        return Failure(PostNotFound(id));
      }
      return Success(posts[id]);
    }

    /**
     * The paginated listing, returned as posts plus `HasNextPage`. One unparseable date
     * anywhere in the store fails the call with an empty result.
     */
    method GetPosts(first: nat, after: Option<string>, parse: Parser)
      returns (r: Result<PostsResult, Error>, ghost sorted: seq<Post>)
      requires Valid()
      ensures r.Failure? <==> exists k :: k in posts && !ValidTime(parse, posts[k].createdAt)
      ensures r.Failure? ==> r.error.InvalidCreatedAt? && r.error.postId in posts
                             && !ValidTime(parse, posts[r.error.postId].createdAt)
      ensures r.Success? ==> && multiset(sorted) == multiset(posts.Values)
                             && NewestFirst(sorted, parse)
                             && r.value == PostsPage(sorted, first, after)
    {
      r, sorted := Listing.ListPosts(posts, first, after, parse);
    }

    /** Insert by id: overwrites an existing entry and changes nothing else. */
    method AddPost(post: Post)
      requires Valid()
      modifies this
      ensures Valid()
      ensures posts == old(posts)[post.id := post]
    {
      posts := posts[post.id := post];
    }
  }
}
