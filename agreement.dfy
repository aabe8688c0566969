/** The file-backed server and the browser replica apply the same rules: on a data
    file whose topic list is not empty (so that neither side seeds defaults), the
    same request is accepted by both or refused by both with the same message. */
module Agreement {
  import opened Text
  import opened Slug
  import opened ForumModel
  import ForumServer
  import LocalForum

  /** The replica state that holds the same two collections as a server database. */
  function AsStored(db: ForumServer.Db): LocalForum.LocalState {
    LocalForum.LocalState(db.topics, db.postsByTopic)
  }

  /** The response a replica outcome corresponds to. */
  predicate SameTopicOutcome(ex: ForumServer.Exchange, step: LocalForum.Step) {
    && (ex.response.status == 201 <==> step.result.Ok?)
    && (step.result.Ok? ==>
          && step.result.value.TopicPayload?
          && ex.response.payload == ForumServer.TopicBody(step.result.value.topic)
          && ex.file == ForumServer.Written(ForumServer.Db(step.stored.topics, step.stored.postsByTopic)))
    && (step.result.Err? ==> ex.response == ForumServer.FailureResponse(step.result.failure))
  }

  lemma AddTopicAgrees(read: ForumServer.DbRead, stored: LocalForum.LocalState, topic: Topic)
    ensures SameTopicOutcome(ForumServer.AddTopic(read, topic),
                             LocalForum.AddTopicOn(stored, AsStored(read.db), topic))
  {
  }

  /** Creating a topic: same topic and same stored collections, or same error. */
  lemma CreateTopicAgrees(db: ForumServer.Db, b: RequestBody, now: nat)
    requires db.topics != []
    ensures SameTopicOutcome(ForumServer.CreateTopicExchange(ForumServer.Written(db), ForumServer.Parsed(b), now),
                             LocalForum.CreateTopicStep(AsStored(db), b, now))
  {
    var name := Trim(b.name);
    var description := Trim(b.description);
    var slug := NormalizeSlug(SlugSource(b.slug, name));
    var file := ForumServer.Written(db);
    ForumServer.CreateTopicInputOutcome(file, ForumServer.Parsed(b), now);
    LocalForum.CreateTopicOutcome(AsStored(db), b, now);
    var read := ForumServer.ReadDbStep(file, now);
    assert read.db == db;
    assert LocalForum.Load(AsStored(db), now) == AsStored(db);
    if TopicInputError(name, description, slug).None? {
      AddTopicAgrees(read, AsStored(db), Topic(slug, name, description, now));
    }
  }

  /** The post a replica outcome corresponds to: the server stores no reply list and
      does not cap the topic's list. */
  predicate SamePostOutcome(ex: ForumServer.Exchange, step: LocalForum.Step) {
    && (ex.response.status == 201 <==> step.result.Ok?)
    && (step.result.Ok? ==>
          && step.result.value.PostPayload?
          && ex.response.payload == ForumServer.PostBody(step.result.value.post.(replies := None)))
    && (step.result.Err? ==> ex.response == ForumServer.FailureResponse(step.result.failure))
  }

  lemma AddPostAgrees(read: ForumServer.DbRead, stored: LocalForum.LocalState, slug: string,
                      b: RequestBody, id: string, now: nat)
    requires slug != []
    ensures SamePostOutcome(ForumServer.CreatePostOn(read, slug, ForumServer.Parsed(b), id, now),
                            LocalForum.AddPostOn(stored, AsStored(read.db), slug, b, id, now))
  {
  }

  /** Creating a post under a slug that normalises to something: both look the topic
      up first and then check the same input rules; the accepted post differs only in
      the reply list the replica adds. */
  lemma CreatePostAgrees(db: ForumServer.Db, slugSegment: string, b: RequestBody, id: string, now: nat)
    requires db.topics != [] && NormalizeSlug(slugSegment) != []
    ensures SamePostOutcome(ForumServer.CreatePostExchange(ForumServer.Written(db), slugSegment, ForumServer.Parsed(b), id, now),
                            LocalForum.CreatePostStep(AsStored(db), slugSegment, b, id, now))
  {
    var file := ForumServer.Written(db);
    var read := ForumServer.ReadDbStep(file, now);
    assert read.db == db;
    assert LocalForum.Load(AsStored(db), now) == AsStored(db);
    AddPostAgrees(read, AsStored(db), NormalizeSlug(slugSegment), b, id, now);
  }
}
