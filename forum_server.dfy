/** The Node file-backed forum server (forum-server.js). Its state is the data file:
    every request re-reads it (`readDb`), and the two create routes write the whole
    database back (`writeDb`). The routes live under `/api`; there is no reply route
    and no cap on the number of posts, and stored posts carry no `replies` field. */
module ForumServer {
  import opened Text
  import opened Slug
  import opened ForumModel
  import opened DateSort
  import opened Routes

  /** The parsed database: the topic list and the slug-to-posts object. */
  datatype Db = Db(topics: seq<Topic>, postsByTopic: map<string, seq<Post>>)

  /** The data file. `Corrupt` covers an unreadable file, text that is not JSON and
      JSON that is not an object; a field that is absent or of the wrong type is `None`. */
  datatype DbFile =
    | Missing
    | Corrupt
    | Present(topics: Option<seq<Topic>>, postsByTopic: Option<map<string, seq<Post>>>)

  /** `writeDb(db)` */
  function Written(db: Db): DbFile {
    Present(Some(db.topics), Some(db.postsByTopic))
  }

  /** The post `seedData` puts under `cycle`; `now` is `Date.now()`. */
  function WelcomePost(now: nat): Post {
    Post("p_" + Digits(now) + "_1", "Welcome to Cycle Tracking",
         "Introduce yourself and share your cycle tracking tips.", "Moderator", now, None)
  }

  /** `seedData()`: the four default topics, the welcome post, three empty lists. */
  function SeedData(now: nat): (db: Db)
    ensures Slugs(db.topics) == ["cycle", "menopause", "fitness", "mental"]
  {
    Db(DefaultTopics(now),
       map["cycle" := [WelcomePost(now)], "menopause" := [], "fitness" := [], "mental" := []])
  }

  datatype DbRead = DbRead(db: Db, file: DbFile)

  /** `readDb()`: what it returns and what the file holds afterwards. The file is
      written only when it was missing, and then with what is returned. */
  function ReadDbStep(file: DbFile, now: nat): (r: DbRead)
    ensures r.file != file ==> file.Missing? && r.file.Present?
  {
    match file
    case Missing => DbRead(SeedData(now), Written(SeedData(now)))
    case Corrupt => DbRead(SeedData(now), file)
    case Present(topics, postsByTopic) => DbRead(Db(topics.GetOr([]), postsByTopic.GetOr(map[])), file)
  }

  /** `readDb` falls back to the seed only for a missing or corrupt file, and writes
      it only when the file is missing; a present file is never rewritten, and its
      empty topic list is returned as it is, not reseeded. */
  lemma ReadDbOutcome(file: DbFile, now: nat)
    ensures var read := ReadDbStep(file, now);
            && (file.Missing? ==> read.db == SeedData(now) && read.file == Written(SeedData(now)))
            && (file.Corrupt? ==> read.db == SeedData(now) && read.file == Corrupt)
            && (file.Present? ==> read.file == file)
            && (file == Written(read.db) ==> read.db.topics == file.topics.value)
            && (file.Present? && file.topics == Some([]) ==> read.db.topics == [])
  {
  }

  /** The welcome post is the only post of the seed; the other default topics start empty. */
  lemma SeedShape(now: nat)
    ensures var db := SeedData(now);
            && db.postsByTopic["cycle"] == [WelcomePost(now)]
            && (forall s :: s in db.postsByTopic && s != "cycle" ==> db.postsByTopic[s] == [])
            && (forall i :: 0 <= i < |db.topics| ==> db.topics[i].slug in db.postsByTopic)
            && DistinctSlugs(db.topics)
  {
    DefaultTopicsWellFormed(now);
  }

  // ---------------------------------------------------------------------------
  // Request bodies.

  const MaxBodyLength: nat := 1024 * 1024

  datatype BodyRead = Parsed(body: RequestBody) | BodyError(message: string)

  /** `readBody(req)` on a request whose body arrives as `chunks`; `parse` stands for
      `JSON.parse` followed by reading the string fields (`None` when it throws). */
  function BodyOutcome(chunks: seq<string>, parse: string -> Option<RequestBody>): (r: BodyRead)
    ensures r.Parsed? ==> |Concat(chunks)| <= MaxBodyLength
    ensures r.BodyError? ==> r.message == "Payload too large" || r.message == "Invalid JSON body"
    ensures Concat(chunks) == [] ==> r == Parsed(EmptyBody)
  {
    var text := Concat(chunks);
    if |text| > MaxBodyLength then BodyError("Payload too large")
    else if text == [] then Parsed(EmptyBody)
    else match parse(text)
      case None => BodyError("Invalid JSON body")
      case Some(body) => Parsed(body)
  }

  lemma {:induction false} ConcatPrefixLength(chunks: seq<string>, i: nat)
    requires i <= |chunks|
    ensures |Concat(chunks[..i])| <= |Concat(chunks)|
    decreases |chunks|
  {
    if i < |chunks| {
      var init := chunks[..|chunks| - 1];
      assert chunks[..i] == init[..i];
      ConcatPrefixLength(init, i);
    } else {
      assert chunks[..i] == chunks;
    }
  }

  /** A body once too large stays too large whatever arrives after it. */
  lemma TooLargeStaysTooLarge(chunks: seq<string>, more: seq<string>, parse: string -> Option<RequestBody>)
    requires |Concat(chunks)| > MaxBodyLength
    ensures BodyOutcome(chunks + more, parse) == BodyError("Payload too large")
  {
    assert (chunks + more)[..|chunks|] == chunks;
    ConcatPrefixLength(chunks + more, |chunks|);
  }

  /** The `data` handler appends each chunk and rejects as soon as the text passes
      1 MiB; the `end` handler maps an empty text to `{}` and parses the rest. */
  method ReadBody(chunks: seq<string>, parse: string -> Option<RequestBody>) returns (r: BodyRead)
    ensures r == BodyOutcome(chunks, parse)
  {
    var body := "";
    var i := 0;
    while i < |chunks|
      invariant 0 <= i <= |chunks|
      invariant body == Concat(chunks[..i])
      invariant |body| <= MaxBodyLength
    {
      assert chunks[..i + 1][..i] == chunks[..i];
      body := body + chunks[i];
      i := i + 1;
      if |body| > MaxBodyLength {
        ConcatPrefixLength(chunks, i);
        return BodyError("Payload too large");
      }
    }
    assert chunks[..i] == chunks;
    if body == [] {
      return Parsed(EmptyBody);
    }
    var parsed := parse(body);
    if parsed.None? {
      return BodyError("Invalid JSON body");
    }
    r := Parsed(parsed.value);
  }

  // ---------------------------------------------------------------------------
  // Responses.

  datatype Payload =
    | NoContent
    | HealthBody(now: int)
    | TopicsBody(topics: seq<Topic>)
    | TopicBody(topic: Topic)
    | PostsBody(posts: seq<Post>)
    | PostBody(post: Post)
    | ErrorBody(error: string)

  datatype Response = Response(status: nat, payload: Payload)

  /** A response and the data file after it. */
  datatype Exchange = Exchange(response: Response, file: DbFile)

  function FailureResponse(f: Failure): Response {
    Response(Status(f.kind), ErrorBody(f.message))
  }

  const NotFoundResponse := Response(404, ErrorBody("Not found."))

  /** The routes the handler matches after `/api`; the reply path is not one of them. */
  function ServerRoute(path: string): (r: Route)
    ensures r.RepliesRoute? == false
  {
    if StartsWith(path, "/api") then
      match ParseRoute(path[4..])
      case RepliesRoute(_, _) => NoRoute
      case other => other
    else NoRoute
  }

  /** GET /api/topics */
  function ListTopicsExchange(file: DbFile, now: nat): Exchange {
    var read := ReadDbStep(file, now);
    Exchange(Response(200, TopicsBody(read.db.topics)), read.file)
  }

  /** POST /api/topics: the body is read first, the file only after the input checks.
      Only a 201 carries the topic; any other answer leaves the file as `readDb` left it. */
  function CreateTopicExchange(file: DbFile, body: BodyRead, now: nat): (ex: Exchange)
    ensures ex.response.status in {201, 400, 409, 500}
    ensures ex.response.status == 201 <==> ex.response.payload.TopicBody?
    ensures ex.response.status != 201 ==> ex.file == file || ex.file == ReadDbStep(file, now).file
  {
    match body
    case BodyError(message) => Exchange(Response(500, ErrorBody(message)), file)
    case Parsed(b) =>
      var name := Trim(b.name);
      var description := Trim(b.description);
      var slug := NormalizeSlug(SlugSource(b.slug, name));
      match TopicInputError(name, description, slug)
      case Some(rule) => Exchange(FailureResponse(TopicRuleFailure(rule)), file)
      case None => AddTopic(ReadDbStep(file, now), Topic(slug, name, description, now))
  }

  /** The part of POST /api/topics after the input checks, on what `readDb` returned. */
  function AddTopic(read: DbRead, topic: Topic): (ex: Exchange)
    ensures ex.response.status in {201, 409}
    ensures ex.response.status == 201 <==> ex.response.payload.TopicBody?
    ensures ex.response.status != 201 ==> ex.file == read.file
  {
    if HasTopic(read.db.topics, topic.slug) then Exchange(FailureResponse(DuplicateTopic), read.file)
    else
      var db := Db(read.db.topics + [topic], WithPostList(read.db.postsByTopic, topic.slug));
      Exchange(Response(201, TopicBody(topic)), Written(db))
  }

  /** GET /api/topics/:slug/posts */
  function ListPostsExchange(file: DbFile, slugSegment: string, now: nat): Exchange {
    ListPostsOn(ReadDbStep(file, now), NormalizeSlug(slugSegment))
  }

  function ListPostsOn(read: DbRead, slug: string): Exchange {
    if !HasTopic(read.db.topics, slug) then Exchange(FailureResponse(TopicNotFound), read.file)
    else Exchange(Response(200, PostsBody(SortByDateDesc(PostsOf(read.db.postsByTopic, slug)))), read.file)
  }

  /** POST /api/topics/:slug/posts: the topic is looked up before the body is read.
      Only a 201 carries the post; any other answer leaves the file as `readDb` left it. */
  function CreatePostExchange(file: DbFile, slugSegment: string, body: BodyRead, id: string, now: nat): (ex: Exchange)
    ensures ex.response.status in {201, 400, 404, 500}
    ensures ex.response.status == 201 <==> ex.response.payload.PostBody?
    ensures ex.response.status != 201 ==> ex.file == ReadDbStep(file, now).file
  {
    CreatePostOn(ReadDbStep(file, now), NormalizeSlug(slugSegment), body, id, now)
  }

  function CreatePostOn(read: DbRead, slug: string, body: BodyRead, id: string, now: nat): (ex: Exchange)
    ensures ex.response.status in {201, 400, 404, 500}
    ensures ex.response.status == 201 <==> ex.response.payload.PostBody?
    ensures ex.response.status != 201 ==> ex.file == read.file
  {
    if !HasTopic(read.db.topics, slug) then Exchange(FailureResponse(TopicNotFound), read.file)
    else match body
      case BodyError(message) => Exchange(Response(500, ErrorBody(message)), read.file)
      case Parsed(b) =>
        var title := Trim(b.title);
        var content := Trim(b.content);
        match PostInputError(title, content)
        case Some(rule) => Exchange(FailureResponse(PostRuleFailure(rule)), read.file)
        case None =>
          var post := Post(id, title, content, AuthorOf(b.author), now, None);
          var posts := [post] + PostsOf(read.db.postsByTopic, slug);
          Exchange(Response(201, PostBody(post)), Written(Db(read.db.topics, read.db.postsByTopic[slug := posts])))
  }

  /** The request handler, on a request whose URL path is `path`. The data file
      changes only on a 201 or when it was missing. */
  function HandleExchange(file: DbFile, verb: Verb, path: string, chunks: seq<string>,
                          parse: string -> Option<RequestBody>, id: string, now: nat): (ex: Exchange)
    ensures ex.response.status in {200, 201, 204, 400, 404, 409, 500}
    ensures ex.file != file ==> ex.response.status == 201 || file.Missing?
  {
    if verb == OPTIONS then Exchange(Response(204, NoContent), file)
    else if verb == GET && path == "/api/health" then Exchange(Response(200, HealthBody(now)), file)
    else match ServerRoute(path)
      case TopicsRoute =>
        if verb == GET then ListTopicsExchange(file, now)
        else if verb == POST then CreateTopicExchange(file, BodyOutcome(chunks, parse), now)
        else Exchange(NotFoundResponse, file)
      case PostsRoute(s) =>
        if verb == GET then ListPostsExchange(file, s, now)
        else if verb == POST then CreatePostExchange(file, s, BodyOutcome(chunks, parse), id, now)
        else Exchange(NotFoundResponse, file)
      case _ => Exchange(NotFoundResponse, file)
  }

  // ---------------------------------------------------------------------------
  // What the routes promise.

  /** OPTIONS is answered 204 with no body and leaves the file alone. */
  lemma PreflightAnswered(file: DbFile, path: string, chunks: seq<string>,
                          parse: string -> Option<RequestBody>, id: string, now: nat)
    ensures HandleExchange(file, OPTIONS, path, chunks, parse, id, now) == Exchange(Response(204, NoContent), file)
  {
  }

  /** The reply path the browser uses is not served: 404 "Not found.", file untouched. */
  lemma RepliesPathNotFound(file: DbFile, verb: Verb, slugSegment: string, postSegment: string,
                            chunks: seq<string>, parse: string -> Option<RequestBody>, id: string, now: nat)
    requires IsSegment(slugSegment) && IsSegment(postSegment) && verb != OPTIONS
    ensures var path := "/api" + RoutePath(RepliesRoute(slugSegment, postSegment));
            HandleExchange(file, verb, path, chunks, parse, id, now) == Exchange(NotFoundResponse, file)
  {
    var rest := RoutePath(RepliesRoute(slugSegment, postSegment));
    var path := "/api" + rest;
    ParseRoutePath(RepliesRoute(slugSegment, postSegment));
    assert path[..4] == "/api" && path[4..] == rest;
    assert ServerRoute(path) == NoRoute;
    assert path != "/api/health" by { assert |path| > |"/api/health"|; }
  }

  /** Creating a topic, the input side: a body that cannot be read is a 500 and the
      first broken input rule a 400, both before the file is read; a valid input
      goes on to the duplicate check. */
  lemma CreateTopicInputOutcome(file: DbFile, body: BodyRead, now: nat)
    ensures var ex := CreateTopicExchange(file, body, now);
            && (body.BodyError? ==> ex == Exchange(Response(500, ErrorBody(body.message)), file))
            && (body.Parsed? ==>
                  var name := Trim(body.body.name);
                  var description := Trim(body.body.description);
                  var slug := NormalizeSlug(SlugSource(body.body.slug, name));
                  var broken := TopicInputError(name, description, slug);
                  && (broken.Some? ==>
                        ex == Exchange(Response(400, ErrorBody(TopicRuleFailure(broken.value).message)), file))
                  && (broken.None? ==> ex == AddTopic(ReadDbStep(file, now), Topic(slug, name, description, now))))
  {
    if body.Parsed? {
      var name := Trim(body.body.name);
      var description := Trim(body.body.description);
      var slug := NormalizeSlug(SlugSource(body.body.slug, name));
      var broken := TopicInputError(name, description, slug);
      if broken.Some? {
        assert TopicRuleFailure(broken.value).kind == ValidationError;
      }
    }
  }

  /** The duplicate check: 409 on a taken slug with nothing written beyond the seeding;
      otherwise 201 with the topic appended at the end of the stored list, the older
      topics and every existing post list untouched, and a list for the new slug. */
  lemma AddTopicOutcome(read: DbRead, topic: Topic)
    ensures var ex := AddTopic(read, topic);
            && (HasTopic(read.db.topics, topic.slug) ==>
                  ex == Exchange(Response(409, ErrorBody("A topic with this name already exists.")), read.file))
            && (!HasTopic(read.db.topics, topic.slug) ==>
                  && ex.response == Response(201, TopicBody(topic))
                  && ex.file.Present? && ex.file.topics == Some(read.db.topics + [topic])
                  && ex.file.postsByTopic.Some?
                  && ex.file.postsByTopic.value.Keys == read.db.postsByTopic.Keys + {topic.slug}
                  && (forall s :: s in read.db.postsByTopic ==>
                        ex.file.postsByTopic.value[s] == read.db.postsByTopic[s]))
  {
  }

  /** Listing posts: 404 when no topic has the slug, otherwise 200 with the stored
      posts newest first, as a permutation; the file changes only by the seeding. */
  lemma ListPostsOutcome(read: DbRead, slug: string)
    ensures var ex := ListPostsOn(read, slug);
            && ex.file == read.file
            && (ex.response.status == 404 <==> !HasTopic(read.db.topics, slug))
            && (ex.response.status == 404 ==> ex.response.payload == ErrorBody("Topic not found."))
            && (ex.response.status != 404 ==>
                  ex.response.status == 200
                  && SortedByDateDesc(ex.response.payload.posts)
                  && multiset(ex.response.payload.posts) == multiset(PostsOf(read.db.postsByTopic, slug)))
  {
  }

  /** Creating a post: an unknown topic is a 404 whatever the body holds, even a body
      that cannot be read; after that an unreadable body is a 500; a failure writes
      nothing beyond the seeding. */
  lemma CreatePostErrors(read: DbRead, slug: string, body: BodyRead, id: string, now: nat)
    ensures var ex := CreatePostOn(read, slug, body, id, now);
            && (!HasTopic(read.db.topics, slug) ==> ex == Exchange(Response(404, ErrorBody("Topic not found.")), read.file))
            && (HasTopic(read.db.topics, slug) && body.BodyError? ==> ex.response == Response(500, ErrorBody(body.message)))
            && (ex.response.status != 201 ==> ex.file == read.file)
  {
    if HasTopic(read.db.topics, slug) && body.Parsed? {
      var broken := PostInputError(Trim(body.body.title), Trim(body.body.content));
      if broken.Some? {
        assert PostRuleFailure(broken.value).kind == ValidationError;
      }
    }
  }

  /** On success the post is put first with no reply list, the list grows by exactly
      one with no cap, and nothing else in the database changes. */
  lemma CreatePostSuccess(read: DbRead, slug: string, b: RequestBody, id: string, now: nat)
    requires CreatePostOn(read, slug, Parsed(b), id, now).response.status == 201
    ensures var old_posts := PostsOf(read.db.postsByTopic, slug);
            var ex := CreatePostOn(read, slug, Parsed(b), id, now);
            var post := Post(id, Trim(b.title), Trim(b.content), AuthorOf(b.author), now, None);
            && ex.response.payload == PostBody(post)
            && ex.file.Present? && ex.file.topics == Some(read.db.topics)
            && ex.file.postsByTopic.Some?
            && ex.file.postsByTopic.value == read.db.postsByTopic[slug := [post] + old_posts]
            && |ex.file.postsByTopic.value[slug]| == |old_posts| + 1
  {
    assert HasTopic(read.db.topics, slug);
    assert PostInputError(Trim(b.title), Trim(b.content)).None?;
  }

  // ---------------------------------------------------------------------------
  // The server process and its data file.

  class FileServer {
    var file: DbFile

    constructor (initial: DbFile)
      ensures file == initial
    {
      file := initial;
    }

    /** `readDb()` */
    method ReadDb(now: nat) returns (db: Db)
      modifies this
      ensures DbRead(db, file) == ReadDbStep(old(file), now)
    {
      match file
      case Missing =>
        db := SeedData(now);
        file := Written(db);
      case Corrupt =>
        db := SeedData(now);
      case Present(topics, postsByTopic) =>
        db := Db(topics.GetOr([]), postsByTopic.GetOr(map[]));
    }

    method CreateTopic(chunks: seq<string>, parse: string -> Option<RequestBody>, now: nat) returns (resp: Response)
      modifies this
      ensures Exchange(resp, file) == CreateTopicExchange(old(file), BodyOutcome(chunks, parse), now)
    {
      var body := ReadBody(chunks, parse);
      if body.BodyError? {
        return Response(500, ErrorBody(body.message));
      }
      var name := Trim(body.body.name);
      var description := Trim(body.body.description);
      var slug := NormalizeSlug(SlugSource(body.body.slug, name));
      var broken := TopicInputError(name, description, slug);
      if broken.Some? {
        return FailureResponse(TopicRuleFailure(broken.value));
      }
      var db := ReadDb(now);
      ghost var read := DbRead(db, file);
      if HasTopic(db.topics, slug) {
        return FailureResponse(DuplicateTopic);
      }
      var topic := Topic(slug, name, description, now);
      var lists := db.postsByTopic;
      if slug !in lists {
        lists := lists[slug := []];
      }
      db := Db(db.topics + [topic], lists);
      file := Written(db);
      assert Exchange(Response(201, TopicBody(topic)), file) == AddTopic(read, topic);
      resp := Response(201, TopicBody(topic));
    }

    method CreatePost(slugSegment: string, chunks: seq<string>, parse: string -> Option<RequestBody>,
                      id: string, now: nat) returns (resp: Response)
      modifies this
      ensures Exchange(resp, file) == CreatePostExchange(old(file), slugSegment, BodyOutcome(chunks, parse), id, now)
    {
      var slug := NormalizeSlug(slugSegment);
      var db := ReadDb(now);
      if !HasTopic(db.topics, slug) {
        return FailureResponse(TopicNotFound);
      }
      var body := ReadBody(chunks, parse);
      if body.BodyError? {
        return Response(500, ErrorBody(body.message));
      }
      var title := Trim(body.body.title);
      var content := Trim(body.body.content);
      var broken := PostInputError(title, content);
      if broken.Some? {
        return FailureResponse(PostRuleFailure(broken.value));
      }
      var post := Post(id, title, content, AuthorOf(body.body.author), now, None);
      var posts := PostsOf(db.postsByTopic, slug);
      posts := [post] + posts;
      db := Db(db.topics, db.postsByTopic[slug := posts]);
      file := Written(db);
      resp := Response(201, PostBody(post));
    }

    /** The `http.createServer` callback. */
    method Handle(verb: Verb, path: string, chunks: seq<string>, parse: string -> Option<RequestBody>,
                  id: string, now: nat) returns (resp: Response)
      modifies this
      ensures Exchange(resp, file) == HandleExchange(old(file), verb, path, chunks, parse, id, now)
    {
      if verb == OPTIONS {
        return Response(204, NoContent);
      }
      if verb == GET && path == "/api/health" {
        return Response(200, HealthBody(now));
      }
      var route := ServerRoute(path);
      if verb == GET && route == TopicsRoute {
        var db := ReadDb(now);
        resp := Response(200, TopicsBody(db.topics));
      } else if verb == POST && route == TopicsRoute {
        resp := CreateTopic(chunks, parse, now);
      } else if verb == GET && route.PostsRoute? {
        var slug := NormalizeSlug(route.slugSegment);
        var db := ReadDb(now);
        if !HasTopic(db.topics, slug) {
          resp := FailureResponse(TopicNotFound);
        } else {
          resp := Response(200, PostsBody(SortByDateDesc(PostsOf(db.postsByTopic, slug))));
        }
      } else if verb == POST && route.PostsRoute? {
        resp := CreatePost(route.slugSegment, chunks, parse, id, now);
      } else {
        resp := NotFoundResponse;
      }
    }
  }
}
