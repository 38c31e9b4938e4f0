# In-memory post and comment store of the GraphQL comment service

This project models the storage core of a Go GraphQL service for posts and threaded
comments, in Dafny, and proves properties of the model. The core is the in-memory
post and comment store together with its cursor pagination. It exists in two
generations: the older one under `app/pkg/data/in-memory` and the newer one under
`pkg/data/in-memory`. Around the store the project models four more pieces:

- the newer generation's `InMemoryStore` adapter, which turns listing results into
  Relay edges whose cursor is the node's id;
- the input validators of both generations;
- the older generation's GraphQL resolvers, which copy the store's edges and derive
  the page info;
- the two mutations, which are gated on the validators.

Module layout:

| file | module | models |
|---|---|---|
| `types.dfy` | `Types`, `Timestamps` | posts, comments, edges, page info, connections, errors; timestamp parsing as a parameter |
| `paging.dfy` | `Paging` | the page arithmetic as functions, and the lemmas about cursors, clamping, `hasNextPage` and chained pagination |
| `chaining.dfy` | `Chaining` | cursor chains across separate listing calls, each of which may sort tied entries its own way |
| `listing.dfy` | `Listing` | the loops every listing runs: collect or filter over the map, in-place sort, date check, cursor search, slicing |
| `app_posts.dfy`, `app_comments.dfy` | `AppPosts`, `AppComments` | the older generation's store objects (`PostStore`, `CommentStore`) |
| `pkg_posts.dfy`, `pkg_comments.dfy` | `PkgPosts`, `PkgComments` | the newer generation's package-level tables (`PostTable`, `CommentTable`) |
| `pkg_store.dfy` | `PkgStore` | the `InMemoryStore` adapter |
| `validator.dfy`, `pkg_validator.dfy` | `Validator`, `PkgValidator` | `ValidateCreatePostInput`, `ValidateCreateCommentInput`, `ValidationError.Error` |
| `resolvers.dfy` | `Resolvers` | `queryResolver.Posts`, `postResolver.Comments`, `commentResolver.Replies`, `CreatePost`, `CreateComment` |

## Modelling choices

- **Store objects.** Each store object is a class whose `map` field is the Go
  package-level map. Insertion is a map update and a lookup is `in` plus indexing.
  The invariant `Valid()` says that every entry sits under its own id (`KeyedBy`).
  That holds because the only writers insert by id.
- **Map iteration.** Go's randomised map iteration becomes a nondeterministic choice,
  `var k :| k in keys`. So the model holds for every iteration order.
- **Sorted order.** Each listing returns a ghost `sorted`: the order that the iteration
  and the sort produced. The contract says three things about it:
  - `sorted` is a permutation of the selected entries, as a `multiset` equality;
  - it is newest-first or oldest-first by timestamp;
  - the returned page is `PostsPage` or `CommentsPage` of `sorted`.
- **The sort.** `sort.Slice` and `sort.SliceStable` are library calls. They are
  modelled by one in-place insertion sort on an `array`, ascending by an integer rank,
  proved sorted and a permutation.
- **Timestamps.** RFC 3339 parsing (`time.Parse`) is a parameter `parse: string ->
  Option<int>`. A timestamp is valid when `parse(s).Some?`, and the parsed value orders
  it.
- **Page arithmetic.** The page arithmetic is the same in both generations, so it
  lives once in `Paging`. As in the code, posts and comments differ in three ways:
  - posts ignore an empty `""` cursor, while comments search for it;
  - `first == 0` means "all remaining" for posts and "nothing" for comments;
  - posts check the dates of the whole store, comments only those of the filtered set.
- **Whitespace and length.** `strings.TrimSpace` is modelled with Go's `unicode.IsSpace`
  set, and `len(content)` with the UTF-8 byte count of the code points.
- **Cursors and exhaustion.** The older stores leave edge cursors empty. The lemmas
  `PostsEndCursorRestarts` and `CommentsEndCursorRestarts` show the consequence:
  following a page's `endCursor` returns the first page again. Exhaustion is therefore
  stated for id cursors, which is what the newer adapter emits, in two layers:
  - `PostsWalk` and `CommentsWalk` (module `Paging`) follow cursors through one fixed
    sorted order;
  - every listing call collects the map afresh, in Go's random iteration order, and sorts
    again, so two calls may order entries with equal timestamps differently (RFC 3339
    text from `time.Now` has one-second resolution, so ties arise in ordinary use). Module
    `Chaining` therefore lets call k of a chain use its own order `orders[k]`, any order
    the listing's contract allows. `PostCallOrderUnique` and `CommentCallOrderUnique`
    prove that order is forced when no two listed entries share an instant, and
    `PostsChainVisitsAll` and `CommentsChainVisitsAll` then prove exhaustion across
    calls. `PostsChainTieSkips` and `CommentsChainTieSkips` show two entries created in
    the same second, where one chain of calls never returns the second entry.

Three behaviours of the code are worth stating explicitly:

- only the newer generation's `InMemoryStore` adapter sets an edge's cursor to the
  node's id; the older generation's stores leave every cursor empty;
- the comment listings sort first and check the filtered dates afterwards; the outcome
  is the same as checking first, and the model keeps the code's order;
- the in-memory adds never fail; the `error` they return in the older generation is
  always nil.

## Model

| member | source | states |
|---|---|---|
| Paging.StartAfter | app/pkg/data/in-memory/posts.go:117-122 | the cursor search yields the index just past the first element with that id, never beyond the length, with no earlier match; or 0 when no element matches |
| Paging.PostStart | app/pkg/data/in-memory/posts.go:110-123 | the post page starts within the listing, and a start past 0 only comes from a non-empty cursor equal to the id just before it |
| Paging.PostPageLength | app/pkg/data/in-memory/posts.go:125-130 | the page never holds more than what remains, and it holds fewer only when capped at a positive `first` |
| Paging.PostsPage | app/pkg/data/in-memory/posts.go:110-134 | a page is never longer than the listing, and a page followed by another holds exactly `first` posts (so at least one) |
| Paging.PostStartRules | app/pkg/data/in-memory/posts.go:110-123 | a nil or empty cursor starts the post page at 0, an unknown cursor starts it at 0, and the start never exceeds the length |
| Paging.PostStartAtMatch | app/pkg/data/in-memory/posts.go:117-121 | with distinct ids, a non-empty cursor equal to the id at sorted index i starts the page at i + 1 |
| Paging.PostsPageWindow | app/pkg/data/in-memory/posts.go:125-134 | the page has `remaining` posts when `first` is 0 or exceeds `remaining`, and `first` posts otherwise; it is the contiguous window from the start; `hasNextPage` holds iff start + length < len, iff remaining > length |
| Paging.PostsFirstZero | pkg/data/in-memory/posts.go:94-97 | `first == 0` returns every post after the cursor and no next page |
| Paging.PostsEmptyCursorIgnored | app/pkg/data/in-memory/posts.go:113 | an empty-string cursor gives the same page as no cursor |
| Paging.PostsUnknownCursor | pkg/data/in-memory/posts.go:82-92 | a cursor that matches no post gives the same page as no cursor |
| Paging.PostsFirstOne | pkg/data/in-memory/posts.go:99-100 | `first = 1` from the start returns exactly the newest post, with a next page iff there are at least two posts |
| Paging.PostsCursorExcluded | app/pkg/data/in-memory/posts.go:117-121 | the post at a found cursor does not appear on the page after it |
| Paging.PostsAfterLast | pkg/data/in-memory/posts.go:94-100 | a cursor at the last sorted post gives an empty page with no next page |
| Paging.PostsNextStart | pkg/data/in-memory/posts.go:82-100 | passing the last post of a non-empty page as the cursor starts the next page exactly where this one ended |
| Paging.PostsWalkFrom | pkg/data/in-memory/posts.go:82-100 | within one fixed sorted order, chaining each page's last id as the next cursor, until `hasNextPage` is false, returns exactly the sorted posts after the starting cursor, each once and in order |
| Paging.PostsWalkVisitsAll | pkg/data/in-memory/posts.go:82-100 | within one fixed sorted order, chained pagination from no cursor returns the whole listing, for any `first` |
| Paging.CommentStart | app/pkg/data/in-memory/comments.go:117-126 | the comment page starts within the listing, and a start past 0 only comes from a given cursor, the empty one included, equal to the id just before it |
| Paging.CommentsPage | app/pkg/data/in-memory/comments.go:117-135 | a page holds at most `first` comments and at most the listing, and a page followed by another holds exactly `first` |
| Paging.CommentStartRules | app/pkg/data/in-memory/comments.go:117-126 | a nil cursor starts the comment page at 0, an unknown cursor (the empty string included) starts it at 0, and the start never exceeds the length |
| Paging.CommentStartAtMatch | pkg/data/in-memory/comments.go:90-98 | with distinct ids, a cursor equal to the id at sorted index i, even an empty one, starts the page at i + 1 |
| Paging.CommentsPageWindow | app/pkg/data/in-memory/comments.go:128-135 | the page holds min(first, len - start) comments from the start, as a contiguous window; `hasNextPage` holds iff end < len |
| Paging.CommentsFirstZero | app/pkg/data/in-memory/comments.go:128-133 | `first == 0` gives an empty page, which has a next page whenever comments remain after the start |
| Paging.CommentsUnknownCursor | pkg/data/in-memory/comments.go:90-98 | a cursor that matches no comment resets the listing to the start |
| Paging.CommentsCursorExcluded | pkg/data/in-memory/comments.go:90-105 | the comment at a found cursor does not appear on the page after it |
| Paging.CommentsAfterLast | pkg/data/in-memory/comments.go:90-107 | a cursor at the last sorted comment gives an empty page with no next page |
| Paging.CommentsNextStart | pkg/data/in-memory/comments.go:90-107 | passing the last comment of a non-empty page as the cursor starts the next page exactly where this one ended |
| Paging.CommentsWalkFrom | pkg/data/in-memory/comments.go:90-107 | within one fixed sorted order and for `first >= 1`, chaining each page's last id returns exactly the sorted comments after the starting cursor, each once and in order |
| Paging.CommentsWalkVisitsAll | pkg/data/in-memory/comments.go:90-107 | within one fixed sorted order, chained pagination from no cursor with `first >= 1` returns every comment once, oldest first |
| Chaining.RankedUnique | pkg/data/in-memory/posts.go:65-78 | two arrangements of one multiset that both ascend in a rank taking different values on different elements are the same sequence |
| Chaining.PostCallOrderUnique | pkg/data/in-memory/posts.go:65-78 | when no two stored posts share an instant, any two newest-first arrangements of the store, whatever the map iteration order, are equal |
| Chaining.CommentCallOrderUnique | pkg/data/in-memory/comments.go:68-81 | when no two selected comments share an instant, any two oldest-first arrangements of the selection are equal, although `sort.Slice` is unstable |
| Chaining.PostsChainFixed | pkg/data/in-memory/posts.go:59-100 | a chain of calls that all sort the same way, and that makes enough calls, returns what the fixed-order walk returns |
| Chaining.PostsChainVisitsAll | pkg/data/in-memory/posts.go:59-100 | with non-empty ids and pairwise-distinct instants, a chain of more calls than posts, each call sorting in any order the listing allows, returns every stored post once, newest first |
| Chaining.PostsChainTieSkips | app/pkg/data/in-memory/posts.go:90-106 | two posts with the same `CreatedAt` may be sorted either way by different calls, and with `first = 1` the chain [a, b] then [b, a] returns only `a` |
| Chaining.PostsEmptyIdRestarts | app/pkg/data/in-memory/posts.go:113 | a post with the empty id at the end of a page hands out a cursor the next call ignores, so that call returns the first page again |
| Chaining.CommentsChainFixed | pkg/data/in-memory/comments.go:63-107 | a chain of comment calls that all sort the same way, with `first >= 1` and enough calls, returns what the fixed-order walk returns |
| Chaining.CommentsChainVisitsAll | pkg/data/in-memory/comments.go:63-107 | for a selection from an id-keyed store with pairwise-distinct instants and `first >= 1`, a chain of more calls than comments, each sorting in any allowed order, returns every selected comment once, oldest first |
| Chaining.CommentsChainTieSkips | app/pkg/data/in-memory/comments.go:92-107 | two comments of one post with the same `CreatedAt` may be sorted either way, and with `first = 1` the chain [c, d] then [d, c] returns only `c` |
| Listing.DistinctFromStore | app/pkg/data/in-memory/posts.go:159 | a listing that is a permutation of values drawn from a map keyed by id has no two entries with the same id |
| Listing.SortByRank | app/pkg/data/in-memory/posts.go:102-106 | the in-place sort leaves the array ascending by rank and a permutation of its old contents |
| Listing.Sorted | pkg/data/in-memory/comments.go:74-81 | sorting a slice returns its elements rearranged into ascending rank |
| Listing.FindAfter | app/pkg/data/in-memory/posts.go:117-122 | the cursor-search loop computes `StartAfter` |
| Listing.CollectPosts | app/pkg/data/in-memory/posts.go:90-99 | the collection fails iff some stored post has an unparseable date, naming such a post; otherwise it returns a permutation of all stored posts |
| Listing.FilterByPost | app/pkg/data/in-memory/comments.go:92-96 | the filter returns a permutation of exactly the stored comments of the post |
| Listing.FilterByParent | app/pkg/data/in-memory/comments.go:176-180 | the filter returns a permutation of exactly the stored comments whose parent link is present and equal to the parent id |
| Listing.CheckDates | app/pkg/data/in-memory/comments.go:110-115 | the check passes iff every date in the slice parses |
| Listing.NewestFirstOfRank | app/pkg/data/in-memory/posts.go:102-106 | ascending by the negated instant is newest first |
| Listing.OldestFirstOfRank | app/pkg/data/in-memory/comments.go:99-107 | ascending by the instant is oldest first |
| Listing.PostsWindow | app/pkg/data/in-memory/posts.go:110-134 | the cursor, clamp and slice steps compute `PostsPage` (specified by the `Paging` lemmas) |
| Listing.CommentsWindow | app/pkg/data/in-memory/comments.go:117-135 | the cursor, end and slice steps compute `CommentsPage` |
| Listing.ListPosts | pkg/data/in-memory/posts.go:59-106 | the post listing fails iff some stored date is invalid, with the offending post; otherwise the page is `PostsPage` of a newest-first permutation of the store |
| Listing.SortCheckWindow | app/pkg/data/in-memory/comments.go:98-135 | after the filter, the call fails with the date error iff some filtered date is invalid; otherwise the page is `CommentsPage` of an oldest-first permutation |
| Listing.ListCommentsForPost | pkg/data/in-memory/comments.go:63-113 | only the post's comments are considered, and only their dates can fail the call; the page is `CommentsPage` of them, oldest first |
| Listing.ListReplies | app/pkg/data/in-memory/comments.go:169-225 | only the replies to the parent are considered, and only their dates can fail the call; the page is `CommentsPage` of them, oldest first |
| AppPosts.BuildEdges | app/pkg/data/in-memory/posts.go:138-147 | one edge per page post, in order, each with the post as node and an empty cursor |
| AppPosts.PostStore.GetPostByID | app/pkg/data/in-memory/posts.go:67-78 | the stored post when the id is present, otherwise a not-found error naming the id |
| AppPosts.PostStore.GetPosts | app/pkg/data/in-memory/posts.go:83-152 | fails iff any stored post's date is invalid, whatever the cursor or `first`; otherwise unset-cursor edges for `PostsPage` of a newest-first permutation of the store, and page info carrying only `hasNextPage` |
| AppPosts.PostStore.AddPost | app/pkg/data/in-memory/posts.go:155-162 | maps the post's id to the post, overwriting, and leaves every other key unchanged |
| AppComments.ConvertToCommentEdges | app/pkg/data/in-memory/comments.go:144-155 | length and order preserved, node i is comment i, cursor unset |
| AppComments.CommentStore.GetCommentByID | app/pkg/data/in-memory/comments.go:71-81 | the stored comment when present, otherwise a not-found error naming the id |
| AppComments.CommentStore.GetCommentsForPost | app/pkg/data/in-memory/comments.go:85-141 | fails iff one of the post's comments has an invalid date; otherwise edges for `CommentsPage` of an oldest-first permutation of exactly the post's comments |
| AppComments.CommentStore.GetRepliesForComment | app/pkg/data/in-memory/comments.go:169-225 | fails iff one of the replies has an invalid date; otherwise edges for `CommentsPage` of an oldest-first permutation of exactly the replies |
| AppComments.CommentStore.AddComment | app/pkg/data/in-memory/comments.go:158-165 | maps the comment's id to the comment, overwriting, and leaves every other key unchanged |
| PkgPosts.PostTable.GetPostByID | pkg/data/in-memory/posts.go:48-57 | the present post, or a not-found error for an unknown id |
| PkgPosts.PostTable.GetPosts | pkg/data/in-memory/posts.go:59-106 | an invalid stored date fails the call; otherwise the result equals `PostsPage` of a newest-first permutation of the table |
| PkgPosts.PostTable.AddPost | pkg/data/in-memory/posts.go:108-112 | writes the post under its id and changes nothing else |
| PkgComments.CommentTable.GetCommentByID | pkg/data/in-memory/comments.go:52-61 | the present comment, or a not-found error for a missing id |
| PkgComments.CommentTable.GetCommentsForPost | pkg/data/in-memory/comments.go:63-113 | only comments with a matching post id are returned, oldest first; an invalid date among them fails the call; the result equals `CommentsPage` |
| PkgComments.CommentTable.AddComment | pkg/data/in-memory/comments.go:115-119 | overwrites by id only |
| PkgStore.ToPostConnection | pkg/data/in-memory/inmemory_store.go:24-42 | an error passes through with no connection; otherwise one edge per result post, in order, with cursor equal to the node's id, and `hasNextPage` copied unchanged |
| PkgStore.ToCommentConnection | pkg/data/in-memory/inmemory_store.go:57-75 | the same for comments: error passed through, edges in order with cursor equal to the id, `hasNextPage` copied |
| PkgStore.InMemoryStore.GetPostByID | pkg/data/in-memory/inmemory_store.go:19-21 | delegates unchanged |
| PkgStore.InMemoryStore.GetPosts | pkg/data/in-memory/inmemory_store.go:23-43 | the table's failure cases, or id-cursor edges for `PostsPage` of a newest-first permutation of the table |
| PkgStore.InMemoryStore.AddPost | pkg/data/in-memory/inmemory_store.go:45-48 | always returns no error; the post table gets the post under its id and the comment table is unchanged |
| PkgStore.InMemoryStore.GetCommentByID | pkg/data/in-memory/inmemory_store.go:52-54 | delegates unchanged |
| PkgStore.InMemoryStore.GetCommentsForPost | pkg/data/in-memory/inmemory_store.go:56-76 | the table's failure cases, or id-cursor edges for `CommentsPage` of the post's comments, oldest first |
| PkgStore.InMemoryStore.AddComment | pkg/data/in-memory/inmemory_store.go:78-81 | always returns no error; the comment table gets the comment under its id and the post table is unchanged |
| Validator.ErrorText | app/pkg/validator/validator.go:18-20 | the text is `validation error in field '` followed by the field name, `': ` and the message, in that order and with no other text |
| Validator.IsSpace | app/pkg/validator/validator.go:27 | over ASCII, exactly the space and the tab to carriage-return range are white space, as Go's `unicode.IsSpace` has it; U+00A0 and U+3000 are white space too |
| Validator.TrimSpace | app/pkg/validator/validator.go:27 | the result is the input with a leading run and a trailing run of white space removed and nothing else: a slice `s[lo..hi]` with only white space before `lo` and after `hi`; it neither starts nor ends with white space, and text without white space comes back unchanged |
| Validator.TrimSpaceEmptyIffBlank | app/pkg/validator/validator.go:27 | `len(strings.TrimSpace(s)) == 0` holds exactly when every character of `s` is white space |
| Validator.Utf8Length | app/pkg/validator/validator.go:54 | the byte length lies between the number of code points and four times that number |
| Validator.AsciiUtf8Length | app/pkg/validator/validator.go:54 | for ASCII text the byte length is the character count |
| Validator.ValidateCreatePostInput | app/pkg/validator/validator.go:23-40 | one error per blank field and no other errors; each is reported iff its field is blank; the order is title, author, content; the list is empty iff all three fields are non-blank |
| Validator.ValidateCreateCommentInput | app/pkg/validator/validator.go:43-85 | the list is empty iff author and content are non-blank, the content is at most 2000 bytes, the post id is non-blank and stored, and a given parent id is non-blank, stored and in the same post |
| Validator.TextErrorsReported | app/pkg/validator/validator.go:47-56 | the text checks report blank author, blank content and over-long content exactly when each holds, and only against those two fields |
| Validator.PostIdErrorsReported | app/pkg/validator/validator.go:58-66 | the post checks report a blank id and an unknown post exactly when each holds, and only against the post id |
| Validator.CommentBlankTextReported | app/pkg/validator/validator.go:47-53 | in the full list, a blank author or content is reported iff it is blank, whatever the ids |
| Validator.CommentLengthReported | app/pkg/validator/validator.go:54-56 | content over 2000 bytes is reported iff it is over, whether or not it is also blank |
| Validator.CommentPostErrorsReported | app/pkg/validator/validator.go:58-66 | a blank post id and an unknown post are each reported iff they hold, whatever the text and the parent id |
| Validator.ParentErrorsOnlyParent | app/pkg/validator/validator.go:68-82 | the parent checks report only against the parent id |
| Validator.BaseErrorsNotParent | app/pkg/validator/validator.go:46-66 | the checks before the parent never report against the parent id |
| Validator.NoParentNoParentErrors | app/pkg/validator/validator.go:68 | without a parent id no error concerns the parent |
| Validator.MissingParentEndsList | app/pkg/validator/validator.go:73-77 | a parent id that is not stored is reported as the last error, and the mismatch error never appears |
| Validator.ParentErrorsReported | app/pkg/validator/validator.go:68-82 | for a reply, a blank parent id, a missing parent and a parent in another post are each reported iff they hold |
| Validator.BlankUnknownPostTwoErrors | app/pkg/validator/validator.go:58-66 | a blank post id that is not stored yields two distinct post-id errors |
| PkgValidator.ValidateCreateCommentInput | pkg/validator/validator.go:43-85 | an empty list implies non-blank author and content, content of at most 2000 bytes, the post in the table and any parent in the table and in the same post; a non-empty list means the input is not acceptable; an unknown post is reported iff it is missing from the table |
| Resolvers.PageSize | app/graph/schema.resolvers.go:187-190 | a given `first` is passed on unchanged, and a missing one becomes 10 |
| Resolvers.PostsPageInfo | app/graph/schema.resolvers.go:206-224 | `hasNextPage` is copied; `hasPreviousPage` holds iff a cursor was given; start and end cursors come from the first and last edge, or are nil when there are no edges |
| Resolvers.CommentsPageInfo | app/graph/schema.resolvers.go:151-165 | `hasNextPage` is copied, `hasPreviousPage` is false, and the cursors come from the first and last edge or are nil |
| Resolvers.CopyPostEdges | app/graph/schema.resolvers.go:198-204 | the copy equals the store's edges, one to one |
| Resolvers.CopyCommentEdges | app/graph/schema.resolvers.go:143-149 | the copy equals the store's edges, one to one |
| Resolvers.Join | app/graph/schema.resolvers.go:82 | joining nothing gives the empty string, one part gives that part, and the first part always leads |
| Resolvers.JoinSnoc | app/graph/schema.resolvers.go:82 | joining a non-empty list with one more part gives the join of the list, the separator and that part, so `strings.Join` keeps every part in order |
| Resolvers.MessagesSnoc | app/graph/schema.resolvers.go:78-82 | for two or more validation errors, the joined messages are those of all but the last, then `; `, then the last error's text |
| Resolvers.ValidationSummary | app/graph/schema.resolvers.go:82 | the error text starts with `validation errors: `, is just that for no errors, is that prefix and the error's text for one error, and for two or more is the summary of all but the last, then `; `, then the last error's text, so every message appears once, in order |
| Resolvers.NewPost | app/graph/schema.resolvers.go:85-92 | the stored post takes the generated id and the current time, and copies title, content, author and `allowComments` from the input |
| Resolvers.NewComment | app/graph/schema.resolvers.go:115-122 | the stored comment takes the generated id and the current time, and copies post id, parent id, author and content from the input |
| Resolvers.AcceptedCommentKeepsThreads | app/graph/schema.resolvers.go:105-127 | a comment the validator accepts, stored under a fresh id, keeps every comment attached to a stored post and every reply to a stored parent of the same post |
| Resolvers.NewPostKeepsThreads | app/graph/schema.resolvers.go:85-97 | storing a post never breaks a thread |
| Resolvers.PostsEndCursorRestarts | app/graph/schema.resolvers.go:213-217 | with the older store's empty cursors, a page's `endCursor` is `""`, and following it returns the first page again |
| Resolvers.CommentsEndCursorRestarts | app/graph/schema.resolvers.go:151-165 | the same for comments: the `""` cursor is searched for, is not found, and the listing restarts |
| Resolvers.Resolver.Posts | app/graph/schema.resolvers.go:186-230 | a nil `first` becomes 10; a store error comes back wrapped with the context "get posts"; otherwise the store's edges for `PostsPage` under that size, with the derived page info |
| Resolvers.Resolver.Comments | app/graph/schema.resolvers.go:133-171 | a nil `first` becomes 10; a store error passes through; otherwise the post's comment page with the derived page info |
| Resolvers.Resolver.Replies | app/graph/schema.resolvers.go:31-69 | a nil `first` becomes 10; a store error passes through; otherwise the reply page with the derived page info |
| Resolvers.Resolver.CollectMessages | app/graph/schema.resolvers.go:77-80 | one `Error()` text per validation error, in order |
| Resolvers.Resolver.CreatePost | app/graph/schema.resolvers.go:73-99 | a non-empty validation list rejects the input with the joined messages and leaves the store unchanged; otherwise the post built from the input, the id and the time is stored once under that id and returned |
| Resolvers.Resolver.CreateComment | app/graph/schema.resolvers.go:103-129 | validated against the current stores; a rejected input leaves the store unchanged, and an accepted one is stored once under the generated id with the input's post, parent, author and content |

## Left out

- Postgres stores: SQL and database I/O. They are not part of this model, and neither is any parity between them and the in-memory store.
- Concurrency: the `sync.RWMutex` locking. The store objects are single-threaded.
- `time.Parse`, `time.Now` and `uuid.NewString`. Parsing is the `parse` parameter; the generated id and the creation time are parameters of the mutations.
- Go's wrapped parse error (`%w`) inside the date errors, and the exact error strings of the stores. Errors are datatype constructors.
- Seed data (`InitializePosts`, `InitializeComments`, `InitializeData`). The stores start empty.
- `GetNextPostID`: an unused helper that bumps the wrong counter.
- The newer generation's `GetRepliesForComment` package function is not part of this model, so neither is `InMemoryStore.GetRepliesForComment`. Its edge-building body is the same as `GetCommentsForPost`'s and is modelled by `PkgStore.ToCommentConnection`.
- Negative `first`: Go's slicing panics on it. `first` is a `nat`; the 32-bit width of `first` does not matter for non-negative page sizes within memory.
- Listing.SortByRank: proved sorted and a permutation, not stable. `sort.SliceStable` on the post path orders posts with equal timestamps by their collection order, and that order is random anyway.
- Listing.SortCheckWindow: the comment comparator treats an unparseable date as "not less". The model sorts by `Key`, which gives invalid dates the value 0. The order produced with invalid dates is never observable, because the listing then fails.
- The error path of `CreatePost` and `CreateComment` after the store's add ("error creating post/comment") is never taken. The in-memory `AddPost` and `AddComment` always return nil.
- Resolvers.Resolver.Posts, Resolvers.Resolver.Comments, Resolvers.Resolver.Replies: the resolvers are modelled over the older in-memory stores only, not over the store interface with its Postgres implementation.
- Validator.Utf8Length: counts UTF-8 bytes of code points. A Go string holding invalid UTF-8 is not representable as a Dafny `string`.
- No exhaustion property for the older generation: its cursors are empty, and `PostsEndCursorRestarts` and `CommentsEndCursorRestarts` state what happens instead.
- Paging.PostsWalkVisitsAll and Paging.CommentsWalkVisitsAll: they follow cursors through one fixed order. Separate calls may sort entries that share an instant differently, so exhaustion across calls is only promised when no two listed entries share an instant (`Chaining.PostsChainVisitsAll`, `Chaining.CommentsChainVisitsAll`). With a tie a chain can skip an entry (`Chaining.PostsChainTieSkips`, `Chaining.CommentsChainTieSkips`), and the model promises nothing beyond that for ties.
- Comment chains with `first == 0`: the comment page is then empty while `hasNextPage` still holds whenever comments remain (`Paging.CommentsFirstZero`), so there is no last id to pass on and a chaining client never advances. The walk and chain lemmas for comments therefore assume `first >= 1`.
- Stored posts with the empty id: `AddPost` accepts any id, and such a post at the end of a page makes the chain start over (`Chaining.PostsEmptyIdRestarts`). Exhaustion for posts assumes no stored id is empty; ids from `uuid.NewString` never are.
- Aliasing: the Go stores hold `*model.Post` and `*model.Comment` pointers that callers also hold, so a caller that mutates a node after adding it changes the stored entry. The model stores values, and this sharing is not modelled.
- The GraphQL transport, schema generation, logging and `main`.
