/** The browser's offline forum replica, `localForumApi` (script.js). Its state is
    the content of two localStorage keys: the topic list and the slug-to-posts map.
    Every call loads both (`getLocalForumState`), works on the loaded copy and, when
    it succeeds with a write (or lists the topics), saves both back
    (`saveLocalForumState`). A call that throws saves nothing.

    Each operation is a pure step function from the stored state to its outcome and
    the state stored afterwards; `LocalForumStore` is the object whose methods do the
    pushes, unshifts and slices of the source and are proved equal to those steps. */
module LocalForum {
  import opened Text
  import opened Slug
  import opened ForumModel
  import opened DateSort
  import opened Routes

  /** The two keys. `topics` is [] when the key is missing, unparsable or not an
      array; a slug whose entry is missing or not an array is absent from the map. */
  datatype LocalState = LocalState(topics: seq<Topic>, postsByTopic: map<string, seq<Post>>)

  datatype Payload =
    | TopicsPayload(topics: seq<Topic>)
    | TopicPayload(topic: Topic)
    | PostsPayload(posts: seq<Post>)
    | PostPayload(post: Post)
    | ReplyPayload(reply: Reply)

  /** What a call returns (or throws) and what the two keys hold afterwards. */
  datatype Step = Step(result: Result<Payload>, stored: LocalState)

  const EndpointUnavailable := Failure(UnexpectedError, "Forum endpoint unavailable.")

  /** `getLocalForumState`: an empty topic list is replaced by the four defaults, so
      the loaded list is never empty; a non-empty list and the posts are kept. */
  function Load(stored: LocalState, now: int): (st: LocalState)
    ensures st.topics != []
    ensures stored.topics != [] ==> st.topics == stored.topics
    ensures st.postsByTopic == stored.postsByTopic
  {
    LocalState(if stored.topics == [] then DefaultTopics(now) else stored.topics, stored.postsByTopic)
  }

  /** GET /topics: returns the loaded topics and saves them. */
  function ListTopicsStep(stored: LocalState, now: int): (r: Step)
    ensures r.result.Ok? && r.result.value.TopicsPayload? && r.result.value.topics != []
  {
    var st := Load(stored, now);
    Step(Ok(TopicsPayload(st.topics)), st)
  }

  /** POST /topics: the first broken input rule, else the slug check on the loaded topics. */
  function CreateTopicStep(stored: LocalState, body: RequestBody, now: int): (r: Step)
    ensures r.result.Ok? ==> r.result.value.TopicPayload? && r.result.value.topic.createdAt == now
    ensures r.result.Err? ==> r.stored == stored
  {
    var name := Trim(body.name);
    var description := Trim(body.description);
    var slug := NormalizeSlug(SlugSource(body.slug, name));
    match TopicInputError(name, description, slug)
    case Some(rule) => Step(Err(TopicRuleFailure(rule)), stored)
    case None => AddTopicOn(stored, Load(stored, now), Topic(slug, name, description, now))
  }

  /** A valid topic against the loaded state `st`: a conflict when its slug is taken,
      else appended, with an empty post list for a slug that has none. */
  function AddTopicOn(stored: LocalState, st: LocalState, topic: Topic): (r: Step)
    ensures r.result.Ok? ==> r.result.value.TopicPayload? && r.result.value.topic == topic
    ensures r.result.Err? ==> r.stored == stored
  {
    if HasTopic(st.topics, topic.slug) then Step(Err(DuplicateTopic), stored)
    else Step(Ok(TopicPayload(topic)), LocalState(st.topics + [topic], WithPostList(st.postsByTopic, topic.slug)))
  }

  /** GET /topics/:slug/posts: reads only; nothing is saved. */
  function ListPostsStep(stored: LocalState, slugSegment: string, now: int): (r: Step)
    ensures r.result.Ok? ==> r.result.value.PostsPayload? && SortedByDateDesc(r.result.value.posts)
    ensures r.stored == stored
  {
    ListPostsOn(stored, Load(stored, now), NormalizeSlug(slugSegment))
  }

  function ListPostsOn(stored: LocalState, st: LocalState, slug: string): (r: Step)
    ensures r.result.Ok? ==> r.result.value.PostsPayload? && SortedByDateDesc(r.result.value.posts)
    ensures r.stored == stored
  {
    if slug == [] || !HasTopic(st.topics, slug) then Step(Err(TopicNotFound), stored)
    else Step(Ok(PostsPayload(SortByDateDesc(PostsOf(st.postsByTopic, slug)))), stored)
  }

  /** POST /topics/:slug/posts: the topic is looked up before the input is checked. */
  function CreatePostStep(stored: LocalState, slugSegment: string, body: RequestBody, id: string, now: int): (r: Step)
    ensures r.result.Ok? ==> r.result.value.PostPayload? && r.result.value.post.id == id && r.result.value.post.date == now
    ensures r.result.Err? ==> r.stored == stored
  {
    AddPostOn(stored, Load(stored, now), NormalizeSlug(slugSegment), body, id, now)
  }

  function AddPostOn(stored: LocalState, st: LocalState, slug: string, body: RequestBody, id: string, now: int): (r: Step)
    ensures r.result.Ok? ==> r.result.value.PostPayload? && r.result.value.post.id == id && r.result.value.post.date == now
    ensures r.result.Err? ==> r.stored == stored
  {
    var title := Trim(body.title);
    var content := Trim(body.content);
    if slug == [] || !HasTopic(st.topics, slug) then Step(Err(TopicNotFound), stored)
    else match PostInputError(title, content)
      case Some(rule) => Step(Err(PostRuleFailure(rule)), stored)
      case None =>
        var post := Post(id, title, content, AuthorOf(body.author), now, Some([]));
        var posts := PrependCapped(post, PostsOf(st.postsByTopic, slug), MaxPostsPerTopic);
        Step(Ok(PostPayload(post)), LocalState(st.topics, st.postsByTopic[slug := posts]))
  }

  /** POST /topics/:slug/posts/:postId/replies. */
  function CreateReplyStep(stored: LocalState, slugSegment: string, postSegment: string,
                           body: RequestBody, id: string, now: int): (r: Step)
    ensures r.result.Ok? ==> r.result.value.ReplyPayload? && r.result.value.reply.id == id && r.result.value.reply.date == now
    ensures r.result.Err? ==> r.stored == stored
  {
    AddReplyOn(stored, Load(stored, now), NormalizeSlug(slugSegment), Trim(postSegment), body, id, now)
  }

  function AddReplyOn(stored: LocalState, st: LocalState, slug: string, postId: string,
                      body: RequestBody, id: string, now: int): (r: Step)
    ensures r.result.Ok? ==> r.result.value.ReplyPayload? && r.result.value.reply.id == id && r.result.value.reply.date == now
    ensures r.result.Err? ==> r.stored == stored
  {
    var content := Trim(body.content);
    if slug == [] || !HasTopic(st.topics, slug) then Step(Err(TopicNotFound), stored)
    else match ReplyInputError(postId, content)
      case Some(rule) => Step(Err(ReplyRuleFailure(rule)), stored)
      case None =>
        var posts := PostsOf(st.postsByTopic, slug);
        match FindPost(posts, postId)
        case None => Step(Err(PostNotFound), stored)
        case Some(i) =>
          var reply := Reply(id, content, AuthorOf(body.author), now);
          Step(Ok(ReplyPayload(reply)), LocalState(st.topics, st.postsByTopic[slug := WithReply(posts, i, reply)]))
  }

  /** `localForumApi(path, options)`: route by method and path. A call that throws
      saves nothing. */
  function LocalApiStep(stored: LocalState, verb: Verb, path: string, body: RequestBody,
                        id: string, now: int): (r: Step)
    ensures r.result.Err? ==> r.stored == stored
  {
    match ParseRoute(path)
    case TopicsRoute =>
      if verb == GET then ListTopicsStep(stored, now)
      else if verb == POST then CreateTopicStep(stored, body, now)
      else Step(Err(EndpointUnavailable), stored)
    case PostsRoute(s) =>
      if verb == GET then ListPostsStep(stored, s, now)
      else if verb == POST then CreatePostStep(stored, s, body, id, now)
      else Step(Err(EndpointUnavailable), stored)
    case RepliesRoute(s, p) =>
      if verb == POST then CreateReplyStep(stored, s, p, body, id, now)
      else Step(Err(EndpointUnavailable), stored)
    case NoRoute => Step(Err(EndpointUnavailable), stored)
  }

  // ---------------------------------------------------------------------------
  // What the replica keeps true of its storage.

  /** A slug as the normaliser produces it, and not empty. */
  predicate IsStoredSlug(slug: string) {
    slug != [] && |slug| <= MaxSlugLength && AllSlugChars(slug) && NoDoubleHyphen(slug) && slug[0] != '-'
  }

  predicate PostWithinCaps(p: Post) {
    |RepliesOf(p)| <= MaxRepliesPerPost
  }

  predicate PostListWithinCaps(posts: seq<Post>) {
    |posts| <= MaxPostsPerTopic && forall k :: 0 <= k < |posts| ==> PostWithinCaps(posts[k])
  }

  /** Topic slugs are distinct and normalised; every post list and reply list is within its cap. */
  predicate Valid(st: LocalState) {
    && DistinctSlugs(st.topics)
    && (forall i :: 0 <= i < |st.topics| ==> IsStoredSlug(st.topics[i].slug))
    && (forall s :: s in st.postsByTopic ==> PostListWithinCaps(st.postsByTopic[s]))
  }

  lemma LoadValid(stored: LocalState, now: int)
    requires Valid(stored)
    ensures Valid(Load(stored, now))
  {
    if stored.topics == [] {
      DefaultTopicsWellFormed(now);
    }
  }

  /** Appending a topic under a fresh, normalised slug keeps the storage valid. */
  lemma AppendTopicKeepsValid(st: LocalState, topic: Topic)
    requires Valid(st) && IsStoredSlug(topic.slug) && !HasTopic(st.topics, topic.slug)
    ensures Valid(LocalState(st.topics + [topic], WithPostList(st.postsByTopic, topic.slug)))
  {
    var ts := st.topics + [topic];
    forall i, j | 0 <= i < j < |ts| ensures ts[i].slug != ts[j].slug {
      if j == |ts| - 1 {
        assert ts[i] == st.topics[i];
      }
    }
  }

  lemma CreateTopicKeepsValid(stored: LocalState, body: RequestBody, now: int)
    requires Valid(stored)
    ensures Valid(CreateTopicStep(stored, body, now).stored)
  {
    LoadValid(stored, now);
    var st := Load(stored, now);
    var name := Trim(body.name);
    var description := Trim(body.description);
    var slug := NormalizeSlug(SlugSource(body.slug, name));
    if TopicInputError(name, description, slug).None? && !HasTopic(st.topics, slug) {
      assert !BreaksTopicRule(NameInvalid, name, description, slug);
      AppendTopicKeepsValid(st, Topic(slug, name, description, now));
    }
  }

  /** Adding a reply to one post keeps the storage valid. */
  lemma AddReplyKeepsValid(st: LocalState, slug: string, i: nat, reply: Reply)
    requires Valid(st) && i < |PostsOf(st.postsByTopic, slug)|
    ensures Valid(LocalState(st.topics, st.postsByTopic[slug := WithReply(PostsOf(st.postsByTopic, slug), i, reply)]))
  {
    var posts := PostsOf(st.postsByTopic, slug);
    var updated := WithReply(posts, i, reply);
    forall k | 0 <= k < |updated| ensures PostWithinCaps(updated[k]) {
      if k != i {
        assert PostWithinCaps(posts[k]);
      }
    }
  }

  lemma AddReplyOnKeepsValid(stored: LocalState, st: LocalState, slug: string, postId: string,
                              body: RequestBody, id: string, now: int)
    requires Valid(stored) && Valid(st)
    ensures Valid(AddReplyOn(stored, st, slug, postId, body, id, now).stored)
  {
    var content := Trim(body.content);
    var posts := PostsOf(st.postsByTopic, slug);
    if slug != [] && HasTopic(st.topics, slug) && ReplyInputError(postId, content).None?
       && FindPost(posts, postId).Some? {
      AddReplyKeepsValid(st, slug, FindPost(posts, postId).value, Reply(id, content, AuthorOf(body.author), now));
    }
  }

  lemma CreateReplyKeepsValid(stored: LocalState, slugSegment: string, postSegment: string,
                              body: RequestBody, id: string, now: int)
    requires Valid(stored)
    ensures Valid(CreateReplyStep(stored, slugSegment, postSegment, body, id, now).stored)
  {
    LoadValid(stored, now);
    AddReplyOnKeepsValid(stored, Load(stored, now), NormalizeSlug(slugSegment), Trim(postSegment), body, id, now);
  }

  /** Putting a post without replies first in a topic's list keeps the storage valid. */
  lemma PrependPostKeepsValid(st: LocalState, slug: string, post: Post)
    requires Valid(st) && |RepliesOf(post)| <= MaxRepliesPerPost
    ensures Valid(LocalState(st.topics, st.postsByTopic[slug := PrependCapped(post, PostsOf(st.postsByTopic, slug), MaxPostsPerTopic)]))
  {
    var old_posts := PostsOf(st.postsByTopic, slug);
    var posts := PrependCapped(post, old_posts, MaxPostsPerTopic);
    forall k | 0 <= k < |posts| ensures PostWithinCaps(posts[k]) {
      if k > 0 {
        assert posts[k] == old_posts[k - 1];
      }
    }
  }

  lemma AddPostOnKeepsValid(stored: LocalState, st: LocalState, slug: string, body: RequestBody, id: string, now: int)
    requires Valid(stored) && Valid(st)
    ensures Valid(AddPostOn(stored, st, slug, body, id, now).stored)
  {
    var title := Trim(body.title);
    var content := Trim(body.content);
    if slug != [] && HasTopic(st.topics, slug) && PostInputError(title, content).None? {
      PrependPostKeepsValid(st, slug, Post(id, title, content, AuthorOf(body.author), now, Some([])));
    }
  }

  lemma CreatePostKeepsValid(stored: LocalState, slugSegment: string, body: RequestBody, id: string, now: int)
    requires Valid(stored)
    ensures Valid(CreatePostStep(stored, slugSegment, body, id, now).stored)
  {
    LoadValid(stored, now);
    AddPostOnKeepsValid(stored, Load(stored, now), NormalizeSlug(slugSegment), body, id, now);
  }

  /** Every call keeps the storage valid: slugs stay unique, lists stay within their caps. */
  lemma LocalApiKeepsValid(stored: LocalState, verb: Verb, path: string, body: RequestBody, id: string, now: int)
    requires Valid(stored)
    ensures Valid(LocalApiStep(stored, verb, path, body, id, now).stored)
  {
    match ParseRoute(path)
    case TopicsRoute =>
      if verb == GET {
        LoadValid(stored, now);
      } else if verb == POST {
        CreateTopicKeepsValid(stored, body, now);
      }
    case PostsRoute(s) =>
      if verb == POST {
        CreatePostKeepsValid(stored, s, body, id, now);
      }
    case RepliesRoute(s, p) =>
      if verb == POST {
        CreateReplyKeepsValid(stored, s, p, body, id, now);
      }
    case NoRoute =>
  }

  // ---------------------------------------------------------------------------
  // What each call promises.

  /** An empty or corrupt store lists exactly the four default topics, and saves them. */
  lemma FreshStoreListsDefaults(postsByTopic: map<string, seq<Post>>, now: int)
    ensures var step := ListTopicsStep(LocalState([], postsByTopic), now);
            && step.result == Ok(TopicsPayload(DefaultTopics(now)))
            && Slugs(step.result.value.topics) == ["cycle", "menopause", "fitness", "mental"]
            && step.stored == LocalState(DefaultTopics(now), postsByTopic)
  {
  }

  /** A valid topic against the loaded topics: a conflict on a taken slug, else
      exactly one topic appended at the end with the existing ones untouched and an
      (empty) post list for the new slug; a conflict saves nothing. */
  lemma AddTopicOutcome(stored: LocalState, st: LocalState, topic: Topic)
    ensures var step := AddTopicOn(stored, st, topic);
            && (step.result.Ok? <==> !HasTopic(st.topics, topic.slug))
            && (step.result.Err? ==> step.result == Err(DuplicateTopic) && step.stored == stored)
            && (step.result.Ok? ==>
                  && step.result.value.topic == topic
                  && |step.stored.topics| == |st.topics| + 1
                  && step.stored.topics[..|st.topics|] == st.topics
                  && step.stored.topics[|st.topics|] == topic
                  && topic.slug in step.stored.postsByTopic
                  && (forall s :: s in st.postsByTopic ==>
                        s in step.stored.postsByTopic && step.stored.postsByTopic[s] == st.postsByTopic[s])
                  && (topic.slug !in st.postsByTopic ==> step.stored.postsByTopic[topic.slug] == []))
  {
  }

  /** Creating a topic: the first broken input rule, else the outcome of adding the
      topic to the loaded topics; an error saves nothing. */
  lemma CreateTopicOutcome(stored: LocalState, body: RequestBody, now: int)
    ensures var name := Trim(body.name);
            var description := Trim(body.description);
            var slug := NormalizeSlug(SlugSource(body.slug, name));
            var before := Load(stored, now);
            var step := CreateTopicStep(stored, body, now);
            && (step.result.Err? ==> step.stored == stored)
            && (TopicInputError(name, description, slug).Some? ==>
                  step.result == Err(TopicRuleFailure(TopicInputError(name, description, slug).value)))
            && (step.result.Ok? <==> TopicInputError(name, description, slug).None? && !HasTopic(before.topics, slug))
            && (TopicInputError(name, description, slug).None? ==>
                  step == AddTopicOn(stored, before, Topic(slug, name, description, now)))
  {
    var name := Trim(body.name);
    var description := Trim(body.description);
    var slug := NormalizeSlug(SlugSource(body.slug, name));
    AddTopicOutcome(stored, Load(stored, now), Topic(slug, name, description, now));
  }

  /** After a topic is added, its slug is taken for every later call. */
  lemma AddedTopicIsTaken(stored: LocalState, st: LocalState, topic: Topic, later: int)
    requires AddTopicOn(stored, st, topic).result.Ok?
    ensures HasTopic(Load(AddTopicOn(stored, st, topic).stored, later).topics, topic.slug)
  {
    var after := AddTopicOn(stored, st, topic).stored;
    assert after.topics[|after.topics| - 1] == topic;
    assert Load(after, later) == after;
  }

  /** A second topic whose name normalises to a slug that is already taken is refused. */
  lemma CreateTopicTwiceConflicts(stored: LocalState, first: RequestBody, second: RequestBody, now: int, later: int)
    requires CreateTopicStep(stored, first, now).result.Ok?
    requires var name := Trim(second.name);
             var slug := NormalizeSlug(SlugSource(second.slug, name));
             && TopicInputError(name, Trim(second.description), slug).None?
             && slug == CreateTopicStep(stored, first, now).result.value.topic.slug
    ensures CreateTopicStep(CreateTopicStep(stored, first, now).stored, second, later).result == Err(DuplicateTopic)
  {
    var name := Trim(first.name);
    var description := Trim(first.description);
    var slug := NormalizeSlug(SlugSource(first.slug, name));
    var topic := Topic(slug, name, description, now);
    assert CreateTopicStep(stored, first, now) == AddTopicOn(stored, Load(stored, now), topic);
    AddedTopicIsTaken(stored, Load(stored, now), topic, later);
  }

  /** A created topic shows up in the next listing. */
  lemma CreatedTopicIsListed(stored: LocalState, body: RequestBody, now: int, later: int)
    requires CreateTopicStep(stored, body, now).result.Ok?
    ensures var step := CreateTopicStep(stored, body, now);
            var listed := ListTopicsStep(step.stored, later).result;
            listed.Ok? && step.result.value.topic in listed.value.topics
  {
    var step := CreateTopicStep(stored, body, now);
    assert step.stored.topics[|step.stored.topics| - 1] == step.result.value.topic;
  }

  /** Listing posts of a normalised slug against the loaded state: an unknown or empty
      slug is "Topic not found."; otherwise the stored posts, newest first, as a
      permutation; nothing is saved either way. */
  lemma ListPostsOnOutcome(stored: LocalState, st: LocalState, slug: string)
    ensures var step := ListPostsOn(stored, st, slug);
            && step.stored == stored
            && (step.result.Err? <==> slug == [] || !HasTopic(st.topics, slug))
            && (step.result.Err? ==> step.result.failure == TopicNotFound)
            && (step.result.Ok? ==>
                  && SortedByDateDesc(step.result.value.posts)
                  && multiset(step.result.value.posts) == multiset(PostsOf(st.postsByTopic, slug)))
  {
  }

  /** Listing posts: the slug segment is normalised and looked up among the loaded topics. */
  lemma ListPostsOutcome(stored: LocalState, slugSegment: string, now: int)
    ensures var slug := NormalizeSlug(slugSegment);
            var before := Load(stored, now);
            var step := ListPostsStep(stored, slugSegment, now);
            && step.stored == stored
            && (step.result.Err? <==> slug == [] || !HasTopic(before.topics, slug))
            && (step.result.Err? ==> step.result.failure == TopicNotFound)
            && (step.result.Ok? ==>
                  && SortedByDateDesc(step.result.value.posts)
                  && multiset(step.result.value.posts) == multiset(PostsOf(stored.postsByTopic, slug)))
  {
    ListPostsOnOutcome(stored, Load(stored, now), NormalizeSlug(slugSegment));
  }

  /** Adding a post under a normalised slug: a missing topic is reported before any
      problem with the input; on success the post is first, the list is one longer up
      to 2000, the older posts keep their order, and no other topic's posts nor the
      topic list change; an error saves nothing. */
  lemma AddPostOutcome(stored: LocalState, st: LocalState, slug: string, body: RequestBody, id: string, now: int)
    ensures var old_posts := PostsOf(st.postsByTopic, slug);
            var step := AddPostOn(stored, st, slug, body, id, now);
            && (step.result.Err? ==> step.stored == stored)
            && (slug == [] || !HasTopic(st.topics, slug) ==> step.result == Err(TopicNotFound))
            && (step.result.Ok? <==> slug != [] && HasTopic(st.topics, slug)
                                      && PostInputError(Trim(body.title), Trim(body.content)).None?)
            && (step.result.Ok? ==>
                  var post := step.result.value.post;
                  var posts := step.stored.postsByTopic[slug];
                  && post == Post(id, Trim(body.title), Trim(body.content), AuthorOf(body.author), now, Some([]))
                  && posts[0] == post
                  && |posts| == Min(|old_posts| + 1, MaxPostsPerTopic)
                  && posts[1..] == old_posts[..|posts| - 1]
                  && step.stored.topics == st.topics
                  && (forall s :: s != slug ==> (s in step.stored.postsByTopic <==> s in st.postsByTopic))
                  && (forall s :: s != slug && s in st.postsByTopic ==>
                        step.stored.postsByTopic[s] == st.postsByTopic[s]))
  {
  }

  /** Creating a post: the slug segment is normalised and the post added to the loaded state. */
  lemma CreatePostOutcome(stored: LocalState, slugSegment: string, body: RequestBody, id: string, now: int)
    ensures var slug := NormalizeSlug(slugSegment);
            var before := Load(stored, now);
            var step := CreatePostStep(stored, slugSegment, body, id, now);
            && (step.result.Err? ==> step.stored == stored)
            && (slug == [] || !HasTopic(before.topics, slug) ==> step.result == Err(TopicNotFound))
            && (step.result.Ok? <==> slug != [] && HasTopic(before.topics, slug)
                                      && PostInputError(Trim(body.title), Trim(body.content)).None?)
            && (step.result.Ok? ==> step.stored.topics == before.topics && step.stored.postsByTopic[slug][0] == step.result.value.post)
  {
    AddPostOutcome(stored, Load(stored, now), NormalizeSlug(slugSegment), body, id, now);
  }

  /** A post that was added is returned by the next listing of its topic. */
  lemma AddedPostIsListed(stored: LocalState, st: LocalState, slug: string, body: RequestBody, id: string, later: int, now: int)
    requires AddPostOn(stored, st, slug, body, id, now).result.Ok?
    ensures var step := AddPostOn(stored, st, slug, body, id, now);
            var listed := ListPostsOn(step.stored, Load(step.stored, later), slug).result;
            listed.Ok? && step.result.value.post in listed.value.posts
  {
    var step := AddPostOn(stored, st, slug, body, id, now);
    AddPostOutcome(stored, st, slug, body, id, now);
    assert step.stored.topics != [];
    assert Load(step.stored, later) == step.stored;
    var posts := step.stored.postsByTopic[slug];
    assert PostsOf(step.stored.postsByTopic, slug) == posts;
    ListPostsOnOutcome(step.stored, step.stored, slug);
    var listed := ListPostsOn(step.stored, step.stored, slug).result;
    assert posts[0] in multiset(posts);
    assert posts[0] in multiset(listed.value.posts);
  }

  /** A created post is returned by the next listing of its topic. */
  lemma CreatedPostIsListed(stored: LocalState, slugSegment: string, body: RequestBody, id: string,
                            now: int, later: int)
    requires CreatePostStep(stored, slugSegment, body, id, now).result.Ok?
    ensures var step := CreatePostStep(stored, slugSegment, body, id, now);
            var listed := ListPostsStep(step.stored, slugSegment, later).result;
            listed.Ok? && step.result.value.post in listed.value.posts
  {
    AddedPostIsListed(stored, Load(stored, now), NormalizeSlug(slugSegment), body, id, later, now);
  }

  /** Adding a reply fails, saving nothing, on an unknown topic (checked first), then
      on a missing post id or bad content, then on a post id that is not in that topic;
      it succeeds exactly when none of these happens. */
  lemma AddReplyErrors(stored: LocalState, st: LocalState, slug: string, postId: string,
                       body: RequestBody, id: string, now: int)
    ensures var content := Trim(body.content);
            var posts := PostsOf(st.postsByTopic, slug);
            var step := AddReplyOn(stored, st, slug, postId, body, id, now);
            && (step.result.Err? ==> step.stored == stored)
            && (slug == [] || !HasTopic(st.topics, slug) ==> step.result == Err(TopicNotFound))
            && (slug != [] && HasTopic(st.topics, slug) && ReplyInputError(postId, content).Some? ==>
                  step.result == Err(ReplyRuleFailure(ReplyInputError(postId, content).value)))
            && ((slug != [] && HasTopic(st.topics, slug) && ReplyInputError(postId, content).None?
                 && FindPost(posts, postId).None?) ==> step.result == Err(PostNotFound))
            && (step.result.Ok? <==> slug != [] && HasTopic(st.topics, slug)
                                     && ReplyInputError(postId, content).None? && FindPost(posts, postId).Some?)
  {
  }

  /** The same for the route: the segments are normalised and trimmed first. */
  lemma CreateReplyErrors(stored: LocalState, slugSegment: string, postSegment: string,
                          body: RequestBody, id: string, now: int)
    ensures var slug := NormalizeSlug(slugSegment);
            var postId := Trim(postSegment);
            var content := Trim(body.content);
            var before := Load(stored, now);
            var posts := PostsOf(before.postsByTopic, slug);
            var step := CreateReplyStep(stored, slugSegment, postSegment, body, id, now);
            && (step.result.Err? ==> step.stored == stored)
            && (slug == [] || !HasTopic(before.topics, slug) ==> step.result == Err(TopicNotFound))
            && (slug != [] && HasTopic(before.topics, slug) && ReplyInputError(postId, content).Some? ==>
                  step.result == Err(ReplyRuleFailure(ReplyInputError(postId, content).value)))
            && ((slug != [] && HasTopic(before.topics, slug) && ReplyInputError(postId, content).None?
                 && FindPost(posts, postId).None?) ==> step.result == Err(PostNotFound))
            && (step.result.Ok? <==> slug != [] && HasTopic(before.topics, slug)
                                     && ReplyInputError(postId, content).None? && FindPost(posts, postId).Some?)
  {
    AddReplyErrors(stored, Load(stored, now), NormalizeSlug(slugSegment), Trim(postSegment), body, id, now);
  }

  /** A post id that is not among the topic's posts is refused, even when another topic has it. */
  lemma ReplyToUnknownPostFails(stored: LocalState, slugSegment: string, postSegment: string,
                                body: RequestBody, id: string, now: int)
    requires var posts := PostsOf(Load(stored, now).postsByTopic, NormalizeSlug(slugSegment));
             forall k :: 0 <= k < |posts| ==> posts[k].id != Trim(postSegment)
    ensures CreateReplyStep(stored, slugSegment, postSegment, body, id, now).result.Err?
  {
    var posts := PostsOf(Load(stored, now).postsByTopic, NormalizeSlug(slugSegment));
    assert FindPost(posts, Trim(postSegment)).None?;
  }

  /** On success only the first post with that id changes, gaining the reply first
      among at most 500; the topic list and every other topic's posts are unchanged. */
  lemma AddReplyOutcome(stored: LocalState, st: LocalState, slug: string, postId: string,
                        body: RequestBody, id: string, now: int)
    requires AddReplyOn(stored, st, slug, postId, body, id, now).result.Ok?
    ensures var posts := PostsOf(st.postsByTopic, slug);
            var found := FindPost(posts, postId);
            var step := AddReplyOn(stored, st, slug, postId, body, id, now);
            var reply := step.result.value.reply;
            && found.Some?
            && posts[found.value].id == postId
            && reply == Reply(id, Trim(body.content), AuthorOf(body.author), now)
            && step.stored == LocalState(st.topics, st.postsByTopic[slug := WithReply(posts, found.value, reply)])
  {
  }

  lemma CreateReplyOutcome(stored: LocalState, slugSegment: string, postSegment: string,
                           body: RequestBody, id: string, now: int)
    requires CreateReplyStep(stored, slugSegment, postSegment, body, id, now).result.Ok?
    ensures var slug := NormalizeSlug(slugSegment);
            var before := Load(stored, now);
            var posts := PostsOf(before.postsByTopic, slug);
            var found := FindPost(posts, Trim(postSegment));
            var step := CreateReplyStep(stored, slugSegment, postSegment, body, id, now);
            var reply := step.result.value.reply;
            && found.Some?
            && posts[found.value].id == Trim(postSegment)
            && reply == Reply(id, Trim(body.content), AuthorOf(body.author), now)
            && step.stored == LocalState(before.topics, before.postsByTopic[slug := WithReply(posts, found.value, reply)])
  {
    AddReplyOutcome(stored, Load(stored, now), NormalizeSlug(slugSegment), Trim(postSegment), body, id, now);
  }

  // ---------------------------------------------------------------------------
  // The replica as the object the browser keeps in localStorage.

  class LocalForumStore {
    var topics: seq<Topic>
    var postsByTopic: map<string, seq<Post>>

    function Stored(): LocalState
      reads this
    {
      LocalState(topics, postsByTopic)
    }

    /** A browser whose localStorage holds neither key. */
    constructor ()
      ensures Stored() == LocalState([], map[])
    {
      topics := [];
      postsByTopic := map[];
    }

    /** `saveLocalForumState` */
    method Save(st: LocalState)
      modifies this
      ensures Stored() == st
    {
      topics := st.topics;
      postsByTopic := st.postsByTopic;
    }

    method ListTopics(now: int) returns (r: Result<Payload>)
      modifies this
      ensures Step(r, Stored()) == ListTopicsStep(old(Stored()), now)
    {
      var state := Load(Stored(), now);
      Save(state);
      r := Ok(TopicsPayload(state.topics));
    }

    method CreateTopic(body: RequestBody, now: int) returns (r: Result<Payload>)
      modifies this
      ensures Step(r, Stored()) == CreateTopicStep(old(Stored()), body, now)
    {
      var state := Load(Stored(), now);
      var name := Trim(body.name);
      var description := Trim(body.description);
      var slug := NormalizeSlug(SlugSource(body.slug, name));
      var broken := TopicInputError(name, description, slug);
      if broken.Some? {
        return Err(TopicRuleFailure(broken.value));
      }
      if HasTopic(state.topics, slug) {
        return Err(DuplicateTopic);
      }
      var topic := Topic(slug, name, description, now);
      var lists := state.postsByTopic;
      if slug !in lists {
        lists := lists[slug := []];
      }
      Save(LocalState(state.topics + [topic], lists));
      r := Ok(TopicPayload(topic));
    }

    /** Reads the store and changes nothing. */
    method ListPosts(slugSegment: string, now: int) returns (r: Result<Payload>)
      ensures r == ListPostsStep(Stored(), slugSegment, now).result
      ensures r.Ok? ==> SortedByDateDesc(r.value.posts)
                        && multiset(r.value.posts) == multiset(PostsOf(postsByTopic, NormalizeSlug(slugSegment)))
    {
      var state := Load(Stored(), now);
      var slug := NormalizeSlug(slugSegment);
      if slug == [] || !HasTopic(state.topics, slug) {
        return Err(TopicNotFound);
      }
      var posts := PostsOf(state.postsByTopic, slug);
      r := Ok(PostsPayload(SortByDateDesc(posts)));
    }

    method CreatePost(slugSegment: string, body: RequestBody, id: string, now: int) returns (r: Result<Payload>)
      modifies this
      ensures Step(r, Stored()) == CreatePostStep(old(Stored()), slugSegment, body, id, now)
    {
      var state := Load(Stored(), now);
      var slug := NormalizeSlug(slugSegment);
      var title := Trim(body.title);
      var content := Trim(body.content);
      if slug == [] || !HasTopic(state.topics, slug) {
        return Err(TopicNotFound);
      }
      var broken := PostInputError(title, content);
      if broken.Some? {
        return Err(PostRuleFailure(broken.value));
      }
      var post := Post(id, title, content, AuthorOf(body.author), now, Some([]));
      var list := PostsOf(state.postsByTopic, slug);
      list := [post] + list;
      list := Take(list, MaxPostsPerTopic);
      Save(LocalState(state.topics, state.postsByTopic[slug := list]));
      r := Ok(PostPayload(post));
    }

    method CreateReply(slugSegment: string, postSegment: string, body: RequestBody, id: string, now: int)
      returns (r: Result<Payload>)
      modifies this
      ensures Step(r, Stored()) == CreateReplyStep(old(Stored()), slugSegment, postSegment, body, id, now)
    {
      var state := Load(Stored(), now);
      var slug := NormalizeSlug(slugSegment);
      var postId := Trim(postSegment);
      var content := Trim(body.content);
      if slug == [] || !HasTopic(state.topics, slug) {
        return Err(TopicNotFound);
      }
      var broken := ReplyInputError(postId, content);
      if broken.Some? {
        return Err(ReplyRuleFailure(broken.value));
      }
      var posts := PostsOf(state.postsByTopic, slug);
      var found := FindPost(posts, postId);
      if found.None? {
        return Err(PostNotFound);
      }
      var i := found.value;
      var reply := Reply(id, content, AuthorOf(body.author), now);
      var replies := RepliesOf(posts[i]);
      replies := [reply] + replies;
      replies := Take(replies, MaxRepliesPerPost);
      posts := posts[i := posts[i].(replies := Some(replies))];
      Save(LocalState(state.topics, state.postsByTopic[slug := posts]));
      r := Ok(ReplyPayload(reply));
    }

    /** `localForumApi(path, options)` */
    method Handle(verb: Verb, path: string, body: RequestBody, id: string, now: int) returns (r: Result<Payload>)
      modifies this
      ensures Step(r, Stored()) == LocalApiStep(old(Stored()), verb, path, body, id, now)
    {
      var route := ParseRoute(path);
      if verb == GET && route == TopicsRoute {
        r := ListTopics(now);
      } else if verb == POST && route == TopicsRoute {
        r := CreateTopic(body, now);
      } else if verb == GET && route.PostsRoute? {
        r := ListPosts(route.slugSegment, now);
      } else if verb == POST && route.PostsRoute? {
        r := CreatePost(route.slugSegment, body, id, now);
      } else if verb == POST && route.RepliesRoute? {
        r := CreateReply(route.slugSegment, route.postSegment, body, id, now);
      } else {
        r := Err(EndpointUnavailable);
      }
    }
  }
}
