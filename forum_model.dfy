/** The forum's entities and the rules that all three content stores share:
    the validation order of topic, post and reply input, the author default,
    the newest-first capped lists and the four default topics. */
module ForumModel {
  import opened Text
  import opened Slug

  const MinTopicName: nat := 3
  const MaxTopicName: nat := 60
  const MaxDescription: nat := 180
  const MaxTitle: nat := 120
  const MaxContent: nat := 3000
  const MaxReplyContent: nat := 1500
  const MaxAuthor: nat := 60
  const MaxPostsPerTopic: nat := 2000
  const MaxRepliesPerPost: nat := 500

  /** Timestamps (`createdAt`, `date`) are milliseconds since the epoch; the
      source stores them as ISO strings of one format, which order the same way. */
  datatype Topic = Topic(slug: string, name: string, description: string, createdAt: int)

  datatype Reply = Reply(id: string, content: string, author: string, date: int)

  /** `replies` is `None` when the stored post has no `replies` array. */
  datatype Post = Post(id: string, title: string, content: string, author: string, date: int,
                       replies: Option<seq<Reply>>)

  /** The kind of a failure. The server and the key-value store answer with a status;
      the replica throws a plain `Error` that carries only its message, so for the
      replica the kind is this model's own classification, used to compare the stores. */
  datatype Kind = ValidationError | NotFoundError | ConflictError | UnexpectedError

  datatype Failure = Failure(kind: Kind, message: string)

  datatype Result<T> = Ok(value: T) | Err(failure: Failure)

  /** The HTTP status that carries each kind of failure. */
  function Status(kind: Kind): (code: nat)
    ensures 400 <= code < 600
  {
    match kind
    case ValidationError => 400
    case NotFoundError => 404
    case ConflictError => 409
    case UnexpectedError => 500
  }

  /** The string fields of a request body; a field that is absent (or falsy) is "". */
  datatype RequestBody = RequestBody(slug: string, name: string, description: string,
                                     title: string, content: string, author: string)

  const EmptyBody := RequestBody("", "", "", "", "", "")

  const TopicNotFound := Failure(NotFoundError, "Topic not found.")
  const PostNotFound := Failure(NotFoundError, "Post not found.")
  const DuplicateTopic := Failure(ConflictError, "A topic with this name already exists.")

  function Slugs(topics: seq<Topic>): (r: seq<string>)
    ensures |r| == |topics|
    ensures forall i :: 0 <= i < |r| ==> r[i] == topics[i].slug
  {
    if topics == [] then [] else [topics[0].slug] + Slugs(topics[1..])
  }

  /** `topics.some(t => t.slug === slug)` */
  predicate HasTopic(topics: seq<Topic>, slug: string) {
    exists i :: 0 <= i < |topics| && topics[i].slug == slug
  }

  predicate DistinctSlugs(topics: seq<Topic>) {
    forall i, j :: 0 <= i < j < |topics| ==> topics[i].slug != topics[j].slug
  }

  /** `getDefaultForumTopics` / `defaultTopics`: four topics sharing one `createdAt`. */
  function DefaultTopics(createdAt: int): (r: seq<Topic>)
    ensures Slugs(r) == ["cycle", "menopause", "fitness", "mental"]
    ensures forall i :: 0 <= i < |r| ==> r[i].createdAt == createdAt
  {
    [ Topic("cycle", "Cycle Tracking", "Share experiences and tips", createdAt),
      Topic("menopause", "Menopause Support", "Discuss symptoms and coping strategies", createdAt),
      Topic("fitness", "Fitness & Wellness", "Exercise tips and motivation", createdAt),
      Topic("mental", "Mental Health", "Support for emotional wellbeing", createdAt) ]
  }

  lemma {:induction false} LowercaseWordIsCanonical(w: string)
    requires 0 < |w| <= MaxSlugLength
    requires forall k :: 0 <= k < |w| ==> 'a' <= w[k] <= 'z'
    ensures IsCanonicalSlug(w)
  {
  }

  /** The default topics have distinct slugs, each already in normal form. */
  lemma DefaultTopicsWellFormed(createdAt: int)
    ensures var r := DefaultTopics(createdAt);
            DistinctSlugs(r) && forall i :: 0 <= i < |r| ==> IsCanonicalSlug(r[i].slug)
  {
    var r := DefaultTopics(createdAt);
    LowercaseWordIsCanonical("cycle");
    LowercaseWordIsCanonical("menopause");
    LowercaseWordIsCanonical("fitness");
    LowercaseWordIsCanonical("mental");
    assert r[0].slug == "cycle" && r[1].slug == "menopause" && r[2].slug == "fitness" && r[3].slug == "mental";
  }

  /** `body?.slug || name`: the explicit slug field when present, else the trimmed name. */
  function SlugSource(slugField: string, name: string): string {
    if slugField != "" then slugField else name
  }

  // ---------------------------------------------------------------------------
  // Topic creation: four input checks, in this order, before the duplicate check.

  datatype TopicRule = NameTooShort | NameInvalid | NameTooLong | DescriptionTooLong

  function TopicRuleRank(rule: TopicRule): nat {
    match rule
    case NameTooShort => 0
    case NameInvalid => 1
    case NameTooLong => 2
    case DescriptionTooLong => 3
  }

  /** What each rule forbids, on the trimmed name and description and the normalised slug. */
  predicate BreaksTopicRule(rule: TopicRule, name: string, description: string, slug: string) {
    match rule
    case NameTooShort => |name| < MinTopicName
    case NameInvalid => slug == []
    case NameTooLong => |name| > MaxTopicName
    case DescriptionTooLong => |description| > MaxDescription
  }

  /** The if-chain of the three topic handlers: the first rule broken, in rank order. */
  function TopicInputError(name: string, description: string, slug: string): (r: Option<TopicRule>)
    ensures r.None? ==> forall rule :: !BreaksTopicRule(rule, name, description, slug)
    ensures r.Some? ==> BreaksTopicRule(r.value, name, description, slug)
    ensures r.Some? ==> forall rule :: TopicRuleRank(rule) < TopicRuleRank(r.value)
                                       ==> !BreaksTopicRule(rule, name, description, slug)
  {
    if name == [] || |name| < MinTopicName then Some(NameTooShort)
    else if slug == [] then Some(NameInvalid)
    else if |name| > MaxTopicName then Some(NameTooLong)
    else if |description| > MaxDescription then Some(DescriptionTooLong)
    else None
  }

  function TopicRuleFailure(rule: TopicRule): (f: Failure)
    ensures f.kind == ValidationError
  {
    match rule
    case NameTooShort => Failure(ValidationError, "Topic name should be at least 3 characters.")
    case NameInvalid => Failure(ValidationError, "Topic name is invalid.")
    case NameTooLong => Failure(ValidationError, "Topic name is too long (max 60 characters).")
    case DescriptionTooLong => Failure(ValidationError, "Topic description is too long (max 180 characters).")
  }

  /** A topic that passed the checks has a 3-60 character name, a description of at
      most 180 characters and a non-empty slug in normal form. */
  lemma AcceptedTopicShape(slugField: string, nameField: string, descriptionField: string)
    requires var name := Trim(nameField);
             TopicInputError(name, Trim(descriptionField), NormalizeSlug(SlugSource(slugField, name))).None?
    ensures var name := Trim(nameField);
            var slug := NormalizeSlug(SlugSource(slugField, name));
            && MinTopicName <= |name| <= MaxTopicName
            && |Trim(descriptionField)| <= MaxDescription
            && slug != [] && |slug| <= MaxSlugLength && AllSlugChars(slug) && slug[0] != '-'
            && Letters(SlugSource(slugField, name)) != []
  {
    var name := Trim(nameField);
    var slug := NormalizeSlug(SlugSource(slugField, name));
    assert !BreaksTopicRule(NameTooShort, name, Trim(descriptionField), slug);
    assert !BreaksTopicRule(NameInvalid, name, Trim(descriptionField), slug);
    assert !BreaksTopicRule(NameTooLong, name, Trim(descriptionField), slug);
    assert !BreaksTopicRule(DescriptionTooLong, name, Trim(descriptionField), slug);
    EmptySlugIff(SlugSource(slugField, name));
  }

  // ---------------------------------------------------------------------------
  // Post creation: three input checks, after the topic lookup.

  datatype PostRule = TitleOrContentMissing | TitleTooLong | ContentTooLong

  function PostRuleRank(rule: PostRule): nat {
    match rule
    case TitleOrContentMissing => 0
    case TitleTooLong => 1
    case ContentTooLong => 2
  }

  predicate BreaksPostRule(rule: PostRule, title: string, content: string) {
    match rule
    case TitleOrContentMissing => title == [] || content == []
    case TitleTooLong => |title| > MaxTitle
    case ContentTooLong => |content| > MaxContent
  }

  function PostInputError(title: string, content: string): (r: Option<PostRule>)
    ensures r.None? ==> forall rule :: !BreaksPostRule(rule, title, content)
    ensures r.Some? ==> BreaksPostRule(r.value, title, content)
    ensures r.Some? ==> forall rule :: PostRuleRank(rule) < PostRuleRank(r.value)
                                       ==> !BreaksPostRule(rule, title, content)
  {
    if title == [] || content == [] then Some(TitleOrContentMissing)
    else if |title| > MaxTitle then Some(TitleTooLong)
    else if |content| > MaxContent then Some(ContentTooLong)
    else None
  }

  function PostRuleFailure(rule: PostRule): (f: Failure)
    ensures f.kind == ValidationError
  {
    match rule
    case TitleOrContentMissing => Failure(ValidationError, "Title and content are required.")
    case TitleTooLong => Failure(ValidationError, "Post title is too long (max 120 characters).")
    case ContentTooLong => Failure(ValidationError, "Post content is too long (max 3000 characters).")
  }

  // ---------------------------------------------------------------------------
  // Reply creation (browser replica only): three checks after the topic lookup
  // and before the post lookup.

  datatype ReplyRule = PostIdMissing | ReplyContentMissing | ReplyTooLong

  function ReplyRuleRank(rule: ReplyRule): nat {
    match rule
    case PostIdMissing => 0
    case ReplyContentMissing => 1
    case ReplyTooLong => 2
  }

  predicate BreaksReplyRule(rule: ReplyRule, postId: string, content: string) {
    match rule
    case PostIdMissing => postId == []
    case ReplyContentMissing => content == []
    case ReplyTooLong => |content| > MaxReplyContent
  }

  function ReplyInputError(postId: string, content: string): (r: Option<ReplyRule>)
    ensures r.None? ==> forall rule :: !BreaksReplyRule(rule, postId, content)
    ensures r.Some? ==> BreaksReplyRule(r.value, postId, content)
    ensures r.Some? ==> forall rule :: ReplyRuleRank(rule) < ReplyRuleRank(r.value)
                                       ==> !BreaksReplyRule(rule, postId, content)
  {
    if postId == [] then Some(PostIdMissing)
    else if content == [] then Some(ReplyContentMissing)
    else if |content| > MaxReplyContent then Some(ReplyTooLong)
    else None
  }

  function ReplyRuleFailure(rule: ReplyRule): (f: Failure)
    ensures rule == PostIdMissing <==> f.kind == NotFoundError
    ensures rule != PostIdMissing ==> f.kind == ValidationError
  {
    match rule
    case PostIdMissing => PostNotFound
    case ReplyContentMissing => Failure(ValidationError, "Reply content is required.")
    case ReplyTooLong => Failure(ValidationError, "Reply is too long (max 1500 characters).")
  }

  // ---------------------------------------------------------------------------
  // Authors and the newest-first capped lists.

  /** `String(author || 'Anonymous').trim() || 'Anonymous'`, then `.slice(0, 60)`. */
  function AuthorOf(author: string): (r: string)
    ensures 0 < |r| <= MaxAuthor
    ensures Trim(author) == [] ==> r == "Anonymous"
    ensures Trim(author) != [] ==> |r| == Min(|Trim(author)|, MaxAuthor) && r == Trim(author)[..|r|]
  {
    var t := Trim(author);
    Take(if t == [] then "Anonymous" else t, MaxAuthor)
  }

  /** `list.unshift(x)` followed by `list.slice(0, cap)`: `x` first, the old entries
      after it in their old order, the oldest ones dropped beyond `cap`. */
  function PrependCapped<T>(x: T, s: seq<T>, cap: nat): (r: seq<T>)
    requires cap >= 1
    ensures |r| == Min(|s| + 1, cap)
    ensures r[0] == x
    ensures r[1..] == s[..|r| - 1]
  {
    Take([x] + s, cap)
  }

  /** Nothing is dropped while the list is below its capacity. */
  lemma PrependBelowCap<T>(x: T, s: seq<T>, cap: nat)
    requires |s| < cap
    ensures PrependCapped(x, s, cap) == [x] + s
  {
    var r := PrependCapped(x, s, cap);
    assert r == [r[0]] + r[1..];
  }

  /** A full list stays full: one new entry in, the oldest one out. */
  lemma PrependAtCap<T>(x: T, s: seq<T>, cap: nat)
    requires |s| >= cap >= 1
    ensures PrependCapped(x, s, cap) == [x] + s[..cap - 1]
  {
    var r := PrependCapped(x, s, cap);
    assert r == [r[0]] + r[1..];
  }

  /** The posts stored for a slug; an absent key stands for a missing or non-array value. */
  function PostsOf(postsByTopic: map<string, seq<Post>>, slug: string): seq<Post> {
    if slug in postsByTopic then postsByTopic[slug] else []
  }

  /** `if (!Array.isArray(postsByTopic[slug])) postsByTopic[slug] = []`: the slug gets
      an empty list when it has none; every existing list is kept as it is. */
  function WithPostList(postsByTopic: map<string, seq<Post>>, slug: string): (r: map<string, seq<Post>>)
    ensures r.Keys == postsByTopic.Keys + {slug}
    ensures forall s :: s in postsByTopic ==> r[s] == postsByTopic[s]
    ensures slug !in postsByTopic ==> r[slug] == []
  {
    if slug in postsByTopic then postsByTopic else postsByTopic[slug := []]
  }

  function RepliesOf(post: Post): seq<Reply> {
    post.replies.GetOr([])
  }

  /** `posts.find(p => p && p.id === postId)`, as an index. */
  function FindPost(posts: seq<Post>, id: string): (r: Option<nat>)
    ensures r.Some? ==> r.value < |posts| && posts[r.value].id == id
    ensures r.Some? ==> forall k :: 0 <= k < r.value ==> posts[k].id != id
    ensures r.None? ==> forall k :: 0 <= k < |posts| ==> posts[k].id != id
  {
    if posts == [] then None
    else if posts[0].id == id then Some(0)
    else match FindPost(posts[1..], id)
      case None => None
      case Some(i) => Some(i + 1)
  }

  /** The post at index `i` with `reply` put first among its replies, capped at 500. */
  function WithReply(posts: seq<Post>, i: nat, reply: Reply): (r: seq<Post>)
    requires i < |posts|
    ensures |r| == |posts|
    ensures forall k :: 0 <= k < |r| && k != i ==> r[k] == posts[k]
    ensures r[i] == posts[i].(replies := Some(PrependCapped(reply, RepliesOf(posts[i]), MaxRepliesPerPost)))
  {
    posts[i := posts[i].(replies := Some(PrependCapped(reply, RepliesOf(posts[i]), MaxRepliesPerPost)))]
  }
}
