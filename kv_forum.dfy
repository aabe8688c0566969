/** The serverless forum store over a key-value database (api/_lib/forum-store.js).
    The topic list lives under one key and each topic's posts under a key of their
    own; every operation is a `kv.get`/`kv.set` read-modify-write. Replies are not
    stored by this backend. */
module KvForum {
  import opened Text
  import opened Slug
  import opened ForumModel
  import opened DateSort

  /** A stored value as `kv.get` returns it: a topic array, a post array, or
      anything that is not an array. */
  datatype KvValue = TopicList(topics: seq<Topic>) | PostList(posts: seq<Post>) | OtherValue

  /** The database; a key that is not in the map reads as `null`. */
  type Kv = map<string, KvValue>

  const TopicsKey := "forum:topics:v1"
  const PostsKeyPrefix := "forum:posts:"

  /** `postsKey(slug)` */
  function PostsKey(slug: string): (key: string)
    ensures |key| == |PostsKeyPrefix| + |slug|
    ensures key[..|PostsKeyPrefix|] == PostsKeyPrefix && key[|PostsKeyPrefix|..] == slug
  {
    PostsKeyPrefix + slug
  }

  /** Different slugs never share a posts key ... */
  lemma PostsKeyInjective(a: string, b: string)
    requires PostsKey(a) == PostsKey(b)
    ensures a == b
  {
    assert a == PostsKey(a)[|PostsKeyPrefix|..];
  }

  /** ... and no posts key is the topics key. */
  lemma PostsKeyIsNotTopicsKey(slug: string)
    ensures PostsKey(slug) != TopicsKey
  {
    assert PostsKey(slug)[6] == 'p' && TopicsKey[6] == 't';
  }

  /** The topic list stored under the topics key, when it is a non-empty array. */
  function TopicsIn(kv: Kv): Option<seq<Topic>> {
    if TopicsKey in kv && kv[TopicsKey].TopicList? && kv[TopicsKey].topics != [] then Some(kv[TopicsKey].topics)
    else None
  }

  /** The posts stored under a slug's key; `[]` when the value is not an array. */
  function PostsIn(kv: Kv, slug: string): seq<Post> {
    var key := PostsKey(slug);
    if key in kv && kv[key].PostList? then kv[key].posts else []
  }

  datatype Payload =
    | TopicsPayload(topics: seq<Topic>)
    | TopicPayload(topic: Topic)
    | PostsPayload(posts: seq<Post>)
    | PostPayload(post: Post)

  /** What an operation returns (or throws, with its status) and the database after it. */
  datatype Step = Step(result: Result<Payload>, kv: Kv)

  /** `ensureTopics()`: the stored list, or the four defaults stored in its place. */
  function EnsureTopicsStep(kv: Kv, now: int): (r: (seq<Topic>, Kv))
    ensures r.0 != []
    ensures TopicsIn(r.1) == Some(r.0)
    ensures forall k :: k != TopicsKey ==> (k in r.1 <==> k in kv) && (k in kv ==> r.1[k] == kv[k])
  {
    match TopicsIn(kv)
    case Some(topics) => (topics, kv)
    case None => (DefaultTopics(now), kv[TopicsKey := TopicList(DefaultTopics(now))])
  }

  /** `getTopics()` */
  function GetTopicsStep(kv: Kv, now: int): Step {
    var (topics, after) := EnsureTopicsStep(kv, now);
    Step(Ok(TopicsPayload(topics)), after)
  }

  /** `createTopic({slug, name, description})`: the input is checked before the store
      is read. A created topic carries the call's time, and no key other than the
      topic list is touched. */
  function CreateTopicStep(kv: Kv, body: RequestBody, now: int): (r: Step)
    ensures r.result.Ok? ==> r.result.value.TopicPayload? && r.result.value.topic.createdAt == now
    ensures forall k :: k != TopicsKey ==> (k in r.kv <==> k in kv) && (k in kv ==> r.kv[k] == kv[k])
  {
    var name := Trim(body.name);
    var description := Trim(body.description);
    var slug := NormalizeSlug(SlugSource(body.slug, name));
    match TopicInputError(name, description, slug)
    case Some(rule) => Step(Err(TopicRuleFailure(rule)), kv)
    case None =>
      var (topics, after) := EnsureTopicsStep(kv, now);
      AddTopicOn(topics, after, Topic(slug, name, description, now))
  }

  /** The part of `createTopic` after `ensureTopics` returned `topics` and left `kv`. */
  function AddTopicOn(topics: seq<Topic>, kv: Kv, topic: Topic): Step {
    if HasTopic(topics, topic.slug) then Step(Err(DuplicateTopic), kv)
    else Step(Ok(TopicPayload(topic)), kv[TopicsKey := TopicList(topics + [topic])])
  }

  /** `getPosts(slugInput)`: an empty slug is refused before the store is touched. */
  function GetPostsStep(kv: Kv, slugInput: string, now: int): (r: Step)
    ensures r.result.Ok? ==> r.result.value.PostsPayload? && SortedByDateDesc(r.result.value.posts)
  {
    var slug := NormalizeSlug(slugInput);
    if slug == [] then Step(Err(TopicNotFound), kv)
    else
      var (topics, after) := EnsureTopicsStep(kv, now);
      ListPostsOn(topics, after, slug)
  }

  /** The part of `getPosts` after `ensureTopics` returned `topics` and left `kv`. */
  function ListPostsOn(topics: seq<Topic>, kv: Kv, slug: string): Step {
    if !HasTopic(topics, slug) then Step(Err(TopicNotFound), kv)
    else Step(Ok(PostsPayload(SortByDateDesc(PostsIn(kv, slug)))), kv)
  }

  /** `createPost(slugInput, {title, content, author})`: the topic is checked before the input. */
  function CreatePostStep(kv: Kv, slugInput: string, body: RequestBody, id: string, now: int): (r: Step)
    ensures r.result.Ok? ==> r.result.value.PostPayload? && r.result.value.post.id == id && r.result.value.post.date == now
  {
    var (topics, after) := EnsureTopicsStep(kv, now);
    AddPostOn(topics, after, NormalizeSlug(slugInput), body, id, now)
  }

  /** The part of `createPost` after `ensureTopics` returned `topics` and left `kv`. */
  function AddPostOn(topics: seq<Topic>, kv: Kv, slug: string, body: RequestBody, id: string, now: int): Step {
    var title := Trim(body.title);
    var content := Trim(body.content);
    if !HasTopic(topics, slug) then Step(Err(TopicNotFound), kv)
    else match PostInputError(title, content)
      case Some(rule) => Step(Err(PostRuleFailure(rule)), kv)
      case None =>
        var post := Post(id, title, content, AuthorOf(body.author), now, None);
        var next := PrependCapped(post, PostsIn(kv, slug), MaxPostsPerTopic);
        Step(Ok(PostPayload(post)), kv[PostsKey(slug) := PostList(next)])
  }

  // ---------------------------------------------------------------------------
  // What the operations promise.

  /** `ensureTopics` stores the defaults, all created at one instant, exactly when
      the stored value is not a non-empty array; otherwise it writes nothing. */
  lemma EnsureTopicsOutcome(kv: Kv, now: int)
    ensures var (topics, after) := EnsureTopicsStep(kv, now);
            && (TopicsIn(kv).Some? ==> topics == TopicsIn(kv).value && after == kv)
            && (TopicsIn(kv).None? ==>
                  && Slugs(topics) == ["cycle", "menopause", "fitness", "mental"]
                  && (forall i :: 0 <= i < |topics| ==> topics[i].createdAt == now)
                  && after == kv[TopicsKey := TopicList(topics)])
  {
  }

  /** Creating a topic: 400 for the first broken rule, with no store access at all;
      a valid input goes on to `ensureTopics` and the duplicate check. */
  lemma CreateTopicInputOutcome(kv: Kv, body: RequestBody, now: int)
    ensures var name := Trim(body.name);
            var description := Trim(body.description);
            var slug := NormalizeSlug(SlugSource(body.slug, name));
            var broken := TopicInputError(name, description, slug);
            var step := CreateTopicStep(kv, body, now);
            && (broken.Some? ==> (step == Step(Err(TopicRuleFailure(broken.value)), kv)
                                  && Status(step.result.failure.kind) == 400))
            && (broken.None? ==> step == AddTopicOn(EnsureTopicsStep(kv, now).0, EnsureTopicsStep(kv, now).1,
                                                    Topic(slug, name, description, now)))
  {
    var name := Trim(body.name);
    var description := Trim(body.description);
    var slug := NormalizeSlug(SlugSource(body.slug, name));
    var broken := TopicInputError(name, description, slug);
    if broken.Some? {
      assert TopicRuleFailure(broken.value).kind == ValidationError;
    }
  }

  /** The duplicate check: 409 on a taken slug; otherwise the stored list becomes the
      old one plus the new topic at the end, and only the topics key is written. */
  lemma AddTopicOutcome(topics: seq<Topic>, kv: Kv, topic: Topic)
    ensures var step := AddTopicOn(topics, kv, topic);
            && (HasTopic(topics, topic.slug) ==> (step == Step(Err(DuplicateTopic), kv)
                                                 && Status(step.result.failure.kind) == 409))
            && (!HasTopic(topics, topic.slug) ==>
                  && step.result == Ok(TopicPayload(topic))
                  && TopicsIn(step.kv) == Some(topics + [topic])
                  && (forall k :: k != TopicsKey ==> (k in step.kv <==> k in kv) && (k in kv ==> step.kv[k] == kv[k])))
  {
  }

  /** Listing posts: an empty slug is a 404 that touches nothing; any other slug
      goes on to `ensureTopics`, whose seeding never touches a posts key. */
  lemma GetPostsOutcome(kv: Kv, slugInput: string, now: int)
    ensures var slug := NormalizeSlug(slugInput);
            var (topics, seeded) := EnsureTopicsStep(kv, now);
            var step := GetPostsStep(kv, slugInput, now);
            && (slug == [] ==> step == Step(Err(TopicNotFound), kv))
            && (slug != [] ==> step == ListPostsOn(topics, seeded, slug) && PostsIn(seeded, slug) == PostsIn(kv, slug))
  {
    var slug := NormalizeSlug(slugInput);
    if slug != [] {
      PostsKeyIsNotTopicsKey(slug);
    }
  }

  /** An unknown topic is a 404; otherwise the stored posts (none when the value is
      not an array), newest first, as a permutation; nothing is written. */
  lemma ListPostsOutcome(topics: seq<Topic>, kv: Kv, slug: string)
    ensures var step := ListPostsOn(topics, kv, slug);
            && step.kv == kv
            && (step.result.Err? <==> !HasTopic(topics, slug))
            && (step.result.Err? ==> step.result.failure == TopicNotFound)
            && (step.result.Ok? ==>
                  && SortedByDateDesc(step.result.value.posts)
                  && multiset(step.result.value.posts) == multiset(PostsIn(kv, slug)))
  {
  }

  /** Creating a post, after `ensureTopics`: an unknown topic is a 404 before any
      problem with the input; on success the post's key holds `[post] + existing`
      cut to 2000, a non-array `existing` counting as empty, and no other key is
      written. */
  lemma AddPostOutcome(topics: seq<Topic>, kv: Kv, slug: string, body: RequestBody, id: string, now: int)
    ensures var step := AddPostOn(topics, kv, slug, body, id, now);
            && (!HasTopic(topics, slug) ==> step == Step(Err(TopicNotFound), kv))
            && (step.result.Err? ==> step.kv == kv)
            && (step.result.Ok? <==> HasTopic(topics, slug) && PostInputError(Trim(body.title), Trim(body.content)).None?)
            && (step.result.Ok? ==>
                  var post := step.result.value.post;
                  var existing := PostsIn(kv, slug);
                  var stored := PostsIn(step.kv, slug);
                  && post == Post(id, Trim(body.title), Trim(body.content), AuthorOf(body.author), now, None)
                  && step.kv[PostsKey(slug)].PostList?
                  && stored[0] == post
                  && |stored| == Min(|existing| + 1, MaxPostsPerTopic)
                  && stored[1..] == existing[..|stored| - 1]
                  && (forall k :: k != PostsKey(slug) ==> (k in step.kv <==> k in kv) && (k in kv ==> step.kv[k] == kv[k])))
  {
  }

  /** The post's own write never touches the topics key. */
  lemma AddPostKeepsTopics(topics: seq<Topic>, kv: Kv, slug: string, body: RequestBody, id: string, now: int)
    ensures TopicsIn(AddPostOn(topics, kv, slug, body, id, now).kv) == TopicsIn(kv)
  {
    PostsKeyIsNotTopicsKey(slug);
  }

  /** `createPost` is `ensureTopics` followed by the post's own write, which leaves
      the topic list as `ensureTopics` left it. */
  lemma CreatePostKeepsTopics(kv: Kv, slugInput: string, body: RequestBody, id: string, now: int)
    ensures var ensured := EnsureTopicsStep(kv, now);
            var step := CreatePostStep(kv, slugInput, body, id, now);
            && step == AddPostOn(ensured.0, ensured.1, NormalizeSlug(slugInput), body, id, now)
            && TopicsIn(step.kv) == Some(ensured.0)
  {
    var ensured := EnsureTopicsStep(kv, now);
    AddPostKeepsTopics(ensured.0, ensured.1, NormalizeSlug(slugInput), body, id, now);
  }

  lemma AddedPostIsListed(topics: seq<Topic>, kv: Kv, slug: string, body: RequestBody, id: string, now: int)
    requires AddPostOn(topics, kv, slug, body, id, now).result.Ok?
    ensures var step := AddPostOn(topics, kv, slug, body, id, now);
            var listed := ListPostsOn(topics, step.kv, slug).result;
            listed.Ok? && step.result.value.post in listed.value.posts
  {
    var step := AddPostOn(topics, kv, slug, body, id, now);
    AddPostOutcome(topics, kv, slug, body, id, now);
    ListPostsOutcome(topics, step.kv, slug);
    var stored := PostsIn(step.kv, slug);
    assert stored[0] in multiset(stored);
  }

  /** A created post is returned by the next listing of its topic. (The slug must not
      be empty: `getPosts` refuses an empty slug outright, while `createPost` would
      accept one if a stored topic had it.) */
  lemma CreatedPostIsListed(kv: Kv, slugInput: string, body: RequestBody, id: string, now: int, later: int)
    requires NormalizeSlug(slugInput) != []
    requires CreatePostStep(kv, slugInput, body, id, now).result.Ok?
    ensures var step := CreatePostStep(kv, slugInput, body, id, now);
            var listed := GetPostsStep(step.kv, slugInput, later);
            listed.result.Ok? && step.result.value.post in listed.result.value.posts
  {
    var slug := NormalizeSlug(slugInput);
    var ensured := EnsureTopicsStep(kv, now);
    var step := CreatePostStep(kv, slugInput, body, id, now);
    CreatePostKeepsTopics(kv, slugInput, body, id, now);
    AddedPostIsListed(ensured.0, ensured.1, slug, body, id, now);
    assert EnsureTopicsStep(step.kv, later) == (ensured.0, step.kv);
    GetPostsOutcome(step.kv, slugInput, later);
  }

  // ---------------------------------------------------------------------------
  // The store as an object over the key-value database.

  class KvForumStore {
    var kv: Kv

    constructor (initial: Kv)
      ensures kv == initial
    {
      kv := initial;
    }

    /** `ensureTopics()` */
    method EnsureTopics(now: int) returns (topics: seq<Topic>)
      modifies this
      ensures (topics, kv) == EnsureTopicsStep(old(kv), now)
    {
      var stored := TopicsIn(kv);
      if stored.None? {
        topics := DefaultTopics(now);
        kv := kv[TopicsKey := TopicList(topics)];
      } else {
        topics := stored.value;
      }
    }

    method GetTopics(now: int) returns (r: Result<Payload>)
      modifies this
      ensures Step(r, kv) == GetTopicsStep(old(kv), now)
    {
      var topics := EnsureTopics(now);
      r := Ok(TopicsPayload(topics));
    }

    method CreateTopic(body: RequestBody, now: int) returns (r: Result<Payload>)
      modifies this
      ensures Step(r, kv) == CreateTopicStep(old(kv), body, now)
    {
      var name := Trim(body.name);
      var description := Trim(body.description);
      var slug := NormalizeSlug(SlugSource(body.slug, name));
      var broken := TopicInputError(name, description, slug);
      if broken.Some? {
        return Err(TopicRuleFailure(broken.value));
      }
      var topics := EnsureTopics(now);
      if HasTopic(topics, slug) {
        return Err(DuplicateTopic);
      }
      var topic := Topic(slug, name, description, now);
      var updated := topics + [topic];
      kv := kv[TopicsKey := TopicList(updated)];
      r := Ok(TopicPayload(topic));
    }

    method GetPosts(slugInput: string, now: int) returns (r: Result<Payload>)
      modifies this
      ensures Step(r, kv) == GetPostsStep(old(kv), slugInput, now)
    {
      var slug := NormalizeSlug(slugInput);
      if slug == [] {
        return Err(TopicNotFound);
      }
      var topics := EnsureTopics(now);
      if !HasTopic(topics, slug) {
        return Err(TopicNotFound);
      }
      var key := PostsKey(slug);
      if key !in kv || !kv[key].PostList? {
        return Ok(PostsPayload([]));
      }
      r := Ok(PostsPayload(SortByDateDesc(kv[key].posts)));
    }

    method CreatePost(slugInput: string, body: RequestBody, id: string, now: int) returns (r: Result<Payload>)
      modifies this
      ensures Step(r, kv) == CreatePostStep(old(kv), slugInput, body, id, now)
    {
      var slug := NormalizeSlug(slugInput);
      var title := Trim(body.title);
      var content := Trim(body.content);
      var topics := EnsureTopics(now);
      if !HasTopic(topics, slug) {
        return Err(TopicNotFound);
      }
      var broken := PostInputError(title, content);
      if broken.Some? {
        return Err(PostRuleFailure(broken.value));
      }
      var post := Post(id, title, content, AuthorOf(body.author), now, None);
      var key := PostsKey(slug);
      var next := if key in kv && kv[key].PostList? then [post] + kv[key].posts else [post];
      kv := kv[key := PostList(Take(next, MaxPostsPerTopic))];
      r := Ok(PostPayload(post));
    }
  }
}
