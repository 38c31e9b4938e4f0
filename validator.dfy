/**
 * Input validation for the two mutations (app/pkg/validator/validator.go and its twin
 * pkg/validator/validator.go). Each validator returns the list of problems it found;
 * the store lookups are the maps of the in-memory stores.
 */
module Validator {
  import opened Types

  /** The input fields a problem can be reported against. */
  datatype FieldName = Title | Author | Content | PostId | ParentId

  /** The field names as the error text spells them. */
  function Name(f: FieldName): string {
    match f
    case Title => "title"
    case Author => "author"
    case Content => "content"
    case PostId => "postId"
    case ParentId => "parentId"
  }

  /** One problem with the input; `Field` and `Message` below give its two Go fields. */
  datatype ValidationError =
    | EmptyField(field: FieldName)                       // a required string is blank
    | ContentTooLong                                     // comment content over the byte limit
    | UnknownPost(postId: string)                        // the post lookup failed
    | UnknownParent(parentId: string)                    // the parent lookup failed
    | ParentInOtherPost(parentId: string, postId: string) // the parent belongs to another post

  /** The limit on a comment's content, counted in UTF-8 bytes. */
  const MaxCommentBytes := 2000

  function Field(e: ValidationError): FieldName {
    match e
    case EmptyField(f) => f
    case ContentTooLong => Content
    case UnknownPost(_) => PostId
    case UnknownParent(_) => ParentId
    case ParentInOtherPost(_, _) => ParentId
  }

  function Message(e: ValidationError): string {
    match e
    case EmptyField(f) => Name(f) + " cannot be empty"
    case ContentTooLong => "comment cannot be longer than 2000 characters"
    case UnknownPost(p) => "post with id " + p + " not found"
    case UnknownParent(p) => "parent comment with id " + p + " not found"
    case ParentInOtherPost(p, q) => "parent comment with id " + p + " does not belong to post with id " + q
  }

  const ErrorPrefix := "validation error in field '"

  /** ValidationError.Error: the fixed prefix, the field name, a quote and colon, then the message. */
  function ErrorText(e: ValidationError): (s: string)
    ensures |s| == |ErrorPrefix| + |Name(Field(e))| + 3 + |Message(e)|
    ensures s[..|ErrorPrefix|] == ErrorPrefix
    ensures s[|ErrorPrefix|..|ErrorPrefix| + |Name(Field(e))|] == Name(Field(e))
    ensures s[|ErrorPrefix| + |Name(Field(e))|..|s| - |Message(e)|] == "': "
    ensures s[|s| - |Message(e)|..] == Message(e)
  {
    ErrorPrefix + Name(Field(e)) + "': " + Message(e)
  }

  // ---------------------------------------------------------------- whitespace

  /** Go's unicode.IsSpace: the Latin-1 spaces plus the other White_Space code points. */
  predicate IsSpace(c: char)
    ensures c < '\U{0080}' ==> (IsSpace(c) <==> c == ' ' || '\t' <= c <= '\r')
    ensures c == '\U{00A0}' || c == '\U{3000}' ==> IsSpace(c)
  {
    c == '\t' || c == '\n' || c == '\U{000B}' || c == '\U{000C}' || c == '\r' || c == ' '
    || c == '\U{0085}' || c == '\U{00A0}' || c == '\U{1680}'
    || ('\U{2000}' <= c <= '\U{200A}')
    || c == '\U{2028}' || c == '\U{2029}' || c == '\U{202F}' || c == '\U{205F}' || c == '\U{3000}'
  }

  /** The index of the first non-space at or after `i`, or `|s|` when only white space follows. */
  function SkipSpaces(s: string, i: nat): (k: nat)
    requires i <= |s|
    ensures i <= k <= |s|
    ensures forall j :: i <= j < k ==> IsSpace(s[j])
    ensures k == |s| || !IsSpace(s[k])
    decreases |s| - i
  {
    if i == |s| || !IsSpace(s[i]) then i else SkipSpaces(s, i + 1)
  }

  /** The end of `s[lo..j]` once trailing white space is dropped. */
  function BackOverSpaces(s: string, lo: nat, j: nat): (k: nat)
    requires lo <= j <= |s|
    ensures lo <= k <= j
    ensures forall m :: k <= m < j ==> IsSpace(s[m])
    ensures k == lo || !IsSpace(s[k - 1])
  {
    if j == lo || !IsSpace(s[j - 1]) then j else BackOverSpaces(s, lo, j - 1)
  }

  /** strings.TrimSpace: leading white space is skipped, then trailing white space dropped. */
  function TrimSpace(s: string): (t: string)
    ensures |t| <= |s|
    ensures t != [] ==> !IsSpace(t[0]) && !IsSpace(t[|t| - 1])
    ensures (forall i :: 0 <= i < |s| ==> !IsSpace(s[i])) ==> t == s
    ensures exists lo, hi :: 0 <= lo <= hi <= |s| && t == s[lo..hi] && IsBlank(s[..lo]) && IsBlank(s[hi..])
  {
    var lo := SkipSpaces(s, 0);
    var hi := BackOverSpaces(s, lo, |s|);
    assert IsBlank(s[..lo]) && IsBlank(s[hi..]);
    s[lo..hi]
  }

  /** Blank: nothing but white space (the empty string included). */
  predicate IsBlank(s: string) {
    forall i :: 0 <= i < |s| ==> IsSpace(s[i])
  }

  /**
   * The validators' emptiness test, `len(strings.TrimSpace(s)) == 0`, holds exactly for
   * blank strings; the validators below are written with IsBlank on the strength of it.
   */
  lemma TrimSpaceEmptyIffBlank(s: string)
    ensures |TrimSpace(s)| == 0 <==> IsBlank(s)
  {
    var lo := SkipSpaces(s, 0);
    var hi := BackOverSpaces(s, lo, |s|);
  }

  // ---------------------------------------------------------------- byte length

  /** How many bytes the UTF-8 encoding of one code point takes. */
  function Utf8Width(c: char): nat {
    if c < '\U{0080}' then 1 else if c < '\U{0800}' then 2 else if c < '\U{10000}' then 3 else 4
  }

  /** Go's `len` of the string: its length in UTF-8 bytes. */
  function Utf8Length(s: string): (n: nat)
    ensures |s| <= n <= 4 * |s|
  {
    if s == [] then 0 else Utf8Width(s[0]) + Utf8Length(s[1..])
  }

  /** For ASCII text the byte length is the character count. */
  lemma {:induction false} AsciiUtf8Length(s: string)
    requires forall i :: 0 <= i < |s| ==> s[i] < '\U{0080}'
    ensures Utf8Length(s) == |s|
  {
    if s != [] {
      AsciiUtf8Length(s[1..]);
    }
  }

  // ---------------------------------------------------------------- validators

  /** The field order in which ValidateCreatePostInput reports problems. */
  function PostFieldRank(e: ValidationError): int {
    if e == EmptyField(Title) then 0 else if e == EmptyField(Author) then 1 else 2
  }

  predicate PostInputOk(title: string, author: string, content: string) {
    !IsBlank(title) && !IsBlank(author) && !IsBlank(content)
  }

  /**
   * ValidateCreatePostInput: one error per blank field, in the order title, author,
   * content, and nothing else.
   */
  function ValidateCreatePostInput(title: string, author: string, content: string): (errs: seq<ValidationError>)
    ensures errs == [] <==> PostInputOk(title, author, content)
    ensures EmptyField(Title) in errs <==> IsBlank(title)
    ensures EmptyField(Author) in errs <==> IsBlank(author)
    ensures EmptyField(Content) in errs <==> IsBlank(content)
    ensures forall e :: e in errs ==> e in [EmptyField(Title), EmptyField(Author), EmptyField(Content)]
    ensures forall i, j :: 0 <= i < j < |errs| ==> PostFieldRank(errs[i]) < PostFieldRank(errs[j])
  {
    (if IsBlank(title) then [EmptyField(Title)] else [])
    + (if IsBlank(author) then [EmptyField(Author)] else [])
    + (if IsBlank(content) then [EmptyField(Content)] else [])
  }

  /** The checks of a comment's own text: author and content filled in, content within the byte limit. */
  function TextErrors(author: string, content: string): (errs: seq<ValidationError>)
  {
    (if IsBlank(author) then [EmptyField(Author)] else [])
    + (if IsBlank(content) then [EmptyField(Content)] else [])
    + (if Utf8Length(content) > MaxCommentBytes then [ContentTooLong] else [])
  }

  /** The checks of the post a comment is for: an id filled in, and a stored post under it. */
  function PostIdErrors(posts: map<string, Post>, postId: string): (errs: seq<ValidationError>)
  {
    (if IsBlank(postId) then [EmptyField(PostId)] else [])
    + (if postId !in posts then [UnknownPost(postId)] else [])
  }

  /** The errors ValidateCreateCommentInput collects before it looks at the parent. */
  function CommentBaseErrors(posts: map<string, Post>, author: string, content: string, postId: string): (errs: seq<ValidationError>)
  {
    TextErrors(author, content) + PostIdErrors(posts, postId)
  }

  /**
   * The errors ValidateCreateCommentInput adds for a reply: a blank parent id, then either
   * a failed parent lookup (after which the validator returns at once) or a parent that
   * belongs to another post. A comment that is not a reply adds none.
   */
  function ParentErrors(comments: map<string, Comment>, postId: string, parentId: Option<string>): (errs: seq<ValidationError>)
  {
    match parentId
    case None => []
    case Some(p) =>
      var blank := if IsBlank(p) then [EmptyField(ParentId)] else [];
      if p !in comments then
        blank + [UnknownParent(p)]
      else if comments[p].postId != postId then
        blank + [ParentInOtherPost(p, postId)]
      else
        blank
  }

  /** What a comment input must satisfy for the validator to return no errors. */
  predicate CommentInputOk(posts: map<string, Post>, comments: map<string, Comment>,
                           author: string, content: string, postId: string, parentId: Option<string>) {
    && !IsBlank(author) && !IsBlank(content) && Utf8Length(content) <= MaxCommentBytes
    && !IsBlank(postId) && postId in posts
    && (parentId.Some? ==> !IsBlank(parentId.value) && parentId.value in comments
                           && comments[parentId.value].postId == postId)
  }

  /**
   * ValidateCreateCommentInput: the field checks, the post lookup, then, for a reply, the
   * parent checks. A parent that cannot be found ends the list, so the mismatch check is
   * skipped for it.
   */
  function ValidateCreateCommentInput(posts: map<string, Post>, comments: map<string, Comment>,
                                      author: string, content: string, postId: string,
                                      parentId: Option<string>): (errs: seq<ValidationError>)
    ensures errs == [] <==> CommentInputOk(posts, comments, author, content, postId, parentId)
  {
    CommentBaseErrors(posts, author, content, postId) + ParentErrors(comments, postId, parentId)
  }

  /** The text checks report exactly the text problems, and only against author or content. */
  lemma TextErrorsReported(author: string, content: string)
    ensures var errs := TextErrors(author, content);
            && (EmptyField(Author) in errs <==> IsBlank(author))
            && (EmptyField(Content) in errs <==> IsBlank(content))
            && (ContentTooLong in errs <==> Utf8Length(content) > MaxCommentBytes)
            && forall e :: e in errs ==> Field(e) == Author || Field(e) == Content
  {
  }

  /** The post checks report exactly the post problems, and only against the post id. */
  lemma PostIdErrorsReported(posts: map<string, Post>, postId: string)
    ensures var errs := PostIdErrors(posts, postId);
            && (EmptyField(PostId) in errs <==> IsBlank(postId))
            && (UnknownPost(postId) in errs <==> postId !in posts)
            && forall e :: e in errs ==> Field(e) == PostId
  {
  }

  /** A blank author or content is reported exactly when it is blank, whatever the ids. */
  lemma CommentBlankTextReported(posts: map<string, Post>, comments: map<string, Comment>,
                                 author: string, content: string, postId: string, parentId: Option<string>)
    ensures var errs := ValidateCreateCommentInput(posts, comments, author, content, postId, parentId);
            && (EmptyField(Author) in errs <==> IsBlank(author))
            && (EmptyField(Content) in errs <==> IsBlank(content))
  {
    var text := TextErrors(author, content);
    var rest := PostIdErrors(posts, postId) + ParentErrors(comments, postId, parentId);
    assert ValidateCreateCommentInput(posts, comments, author, content, postId, parentId) == text + rest;
    assert EmptyField(Author) !in rest && EmptyField(Content) !in rest by {
      PostIdErrorsReported(posts, postId);
      ParentErrorsOnlyParent(comments, postId, parentId);
    }
    TextErrorsReported(author, content);
  }

  /**
   * Content over the byte limit is reported exactly when it is over, whether or not it is
   * also blank and whatever the ids.
   */
  lemma CommentLengthReported(posts: map<string, Post>, comments: map<string, Comment>,
                              author: string, content: string, postId: string, parentId: Option<string>)
    ensures ContentTooLong in ValidateCreateCommentInput(posts, comments, author, content, postId, parentId)
            <==> Utf8Length(content) > MaxCommentBytes
  {
    var text := TextErrors(author, content);
    var rest := PostIdErrors(posts, postId) + ParentErrors(comments, postId, parentId);
    assert ValidateCreateCommentInput(posts, comments, author, content, postId, parentId) == text + rest;
    assert ContentTooLong !in rest by {
      PostIdErrorsReported(posts, postId);
      ParentErrorsOnlyParent(comments, postId, parentId);
    }
    TextErrorsReported(author, content);
  }

  /** Both post checks are reported exactly when they fail, whatever the text and the parent id. */
  lemma CommentPostErrorsReported(posts: map<string, Post>, comments: map<string, Comment>,
                                  author: string, content: string, postId: string, parentId: Option<string>)
    ensures var errs := ValidateCreateCommentInput(posts, comments, author, content, postId, parentId);
            && (EmptyField(PostId) in errs <==> IsBlank(postId))
            && (UnknownPost(postId) in errs <==> postId !in posts)
  {
    var text := TextErrors(author, content);
    var post := PostIdErrors(posts, postId);
    var parent := ParentErrors(comments, postId, parentId);
    assert ValidateCreateCommentInput(posts, comments, author, content, postId, parentId) == text + post + parent;
    assert EmptyField(PostId) !in text && UnknownPost(postId) !in text by {
      TextErrorsReported(author, content);
    }
    assert EmptyField(PostId) !in parent && UnknownPost(postId) !in parent by {
      ParentErrorsOnlyParent(comments, postId, parentId);
    }
    PostIdErrorsReported(posts, postId);
  }

  /** The parent checks report only against the parent id. */
  lemma ParentErrorsOnlyParent(comments: map<string, Comment>, postId: string, parentId: Option<string>)
    ensures forall e :: e in ParentErrors(comments, postId, parentId) ==> Field(e) == ParentId
  {
  }

  /** The checks before the parent never report against the parent id. */
  lemma BaseErrorsNotParent(posts: map<string, Post>, author: string, content: string, postId: string)
    ensures forall e :: e in CommentBaseErrors(posts, author, content, postId) ==> Field(e) != ParentId
  {
    var text := TextErrors(author, content);
    var post := PostIdErrors(posts, postId);
    assert CommentBaseErrors(posts, author, content, postId) == text + post;
    assert forall e :: e in text ==> e == EmptyField(Author) || e == EmptyField(Content) || e == ContentTooLong;
    assert forall e :: e in post ==> e == EmptyField(PostId) || e == UnknownPost(postId);
  }

  /** Without a parent id no error concerns the parent. */
  lemma NoParentNoParentErrors(posts: map<string, Post>, comments: map<string, Comment>,
                               author: string, content: string, postId: string)
    ensures forall e :: e in ValidateCreateCommentInput(posts, comments, author, content, postId, None) ==>
              Field(e) != ParentId
  {
    assert ValidateCreateCommentInput(posts, comments, author, content, postId, None)
           == CommentBaseErrors(posts, author, content, postId);
    BaseErrorsNotParent(posts, author, content, postId);
  }

  /**
   * A parent id that is not stored is reported, the report is the last error, and the
   * mismatch check never runs for it.
   */
  lemma MissingParentEndsList(posts: map<string, Post>, comments: map<string, Comment>,
                              author: string, content: string, postId: string, p: string)
    requires p !in comments
    ensures var errs := ValidateCreateCommentInput(posts, comments, author, content, postId, Some(p));
            && errs[|errs| - 1] == UnknownParent(p)
            && forall e :: e in errs ==> !e.ParentInOtherPost?
  {
    var base := CommentBaseErrors(posts, author, content, postId);
    var blank := if IsBlank(p) then [EmptyField(ParentId)] else [];
    var errs := ValidateCreateCommentInput(posts, comments, author, content, postId, Some(p));
    assert errs == (base + blank) + [UnknownParent(p)];
    BaseErrorsNotParent(posts, author, content, postId);
    forall e | e in errs ensures !e.ParentInOtherPost? {
      if e in base {
        assert Field(e) != ParentId;
      }
    }
  }

  /** For a reply, each parent error is reported exactly when its condition holds. */
  lemma ParentErrorsReported(posts: map<string, Post>, comments: map<string, Comment>,
                             author: string, content: string, postId: string, p: string)
    ensures var errs := ValidateCreateCommentInput(posts, comments, author, content, postId, Some(p));
            && (EmptyField(ParentId) in errs <==> IsBlank(p))
            && (UnknownParent(p) in errs <==> p !in comments)
            && (ParentInOtherPost(p, postId) in errs <==> p in comments && comments[p].postId != postId)
  {
    var base := CommentBaseErrors(posts, author, content, postId);
    var parent := ParentErrors(comments, postId, Some(p));
    assert ValidateCreateCommentInput(posts, comments, author, content, postId, Some(p)) == base + parent;
    assert EmptyField(ParentId) !in base && UnknownParent(p) !in base && ParentInOtherPost(p, postId) !in base by {
      BaseErrorsNotParent(posts, author, content, postId);
    }
  }

  /** A blank post id is never a stored key here, so it is reported twice: blank and not found. */
  lemma BlankUnknownPostTwoErrors(posts: map<string, Post>, comments: map<string, Comment>,
                                  author: string, content: string, postId: string, parentId: Option<string>)
    requires IsBlank(postId) && postId !in posts
    ensures var errs := ValidateCreateCommentInput(posts, comments, author, content, postId, parentId);
            exists i, j :: 0 <= i < j < |errs| && Field(errs[i]) == PostId && Field(errs[j]) == PostId
  {
    var text := TextErrors(author, content);
    var errs := ValidateCreateCommentInput(posts, comments, author, content, postId, parentId);
    assert PostIdErrors(posts, postId) == [EmptyField(PostId), UnknownPost(postId)];
    assert errs == text + [EmptyField(PostId), UnknownPost(postId)] + ParentErrors(comments, postId, parentId);
    var i := |text|;
    assert Field(errs[i]) == PostId && Field(errs[i + 1]) == PostId;
  }
}
