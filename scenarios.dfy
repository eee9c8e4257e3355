/** Request sequences a client of the service goes through, and what the
    handlers guarantee across them. */
module Scenarios {
  import opened Wrappers
  import opened Json
  import opened Posts
  import opened Ordering
  import opened Store
  import opened Http
  import opened Api
  import opened Pages

  /** A post created through the API is then served by `GET` under the id
      its record reports, with the same record. */
  method CreateThenGet(db: Database, body: Body, now: Timestamp) returns (created: Response, fetched: Response)
    requires db.Valid() && Complete(CreateDraft(body))
    modifies db
    ensures db.Valid()
    ensures created.JsonResponse? && created.status == 201 && created.body.JObject?
    ensures fetched == JsonResponse(200, created.body)
  {
    ghost var newId: int;
    created, newId := ApiCreatePost(db, body, now);
    var id := created.body.fields["id"].i;
    fetched := ApiGetPost(db, id);
  }

  /** After a delete the post is gone: `GET` answers 404 and the index no
      longer lists it. */
  method DeleteThenGet(db: Database, postId: int) returns (deleted: Response, fetched: Response, listed: Response)
    requires db.Valid() && postId in db.rows
    modifies db
    ensures db.Valid()
    ensures deleted == JsonResponse(200, DeletedBody(postId))
    ensures fetched == JsonResponse(404, ErrorBody(NotFoundMessage))
    ensures listed.Rendered? && listed.view.ListView?
    ensures forall p :: p in listed.view.posts ==> p.id != postId
    ensures |listed.view.posts| == |old(db.rows)| - 1
  {
    deleted := ApiDeletePost(db, postId);
    fetched := ApiGetPost(db, postId);
    listed := Index(db);
    ListingExact(db.rows);
    assert old(db.rows).Keys == db.rows.Keys + {postId};
  }

  /** Deleting twice: the second delete finds nothing, answers 404 and
      changes nothing. */
  method DeleteTwice(db: Database, postId: int) returns (first: Response, second: Response)
    requires db.Valid() && postId in db.rows
    modifies db
    ensures db.Valid() && db.rows == old(db.rows) - {postId}
    ensures first == JsonResponse(200, DeletedBody(postId))
    ensures second == JsonResponse(404, ErrorBody(NotFoundMessage))
  {
    first := ApiDeletePost(db, postId);
    second := ApiDeletePost(db, postId);
  }

  /** The form delete is idempotent: deleting the same id twice leaves the
      table as deleting it once, whether or not the id was present. */
  method FormDeleteTwice(db: Database, postId: int) returns (first: Response, second: Response)
    requires db.Valid()
    modifies db
    ensures db.Valid() && db.rows == old(db.rows) - {postId}
    ensures first == Redirect(ToIndex) && second == Redirect(ToIndex)
  {
    first := DeletePostAction(db, postId);
    ghost var once := db.rows;
    second := DeletePostAction(db, postId);
    assert db.rows == once;
  }

  /** A post created through the form is what its detail page shows. */
  method NewPostThenDetail(db: Database, form: Form, now: Timestamp) returns (created: Response, shown: Response)
    requires db.Valid() && Complete(FormDraft(form))
    modifies db
    ensures db.Valid()
    ensures created.Redirect? && created.target.ToPostDetail?
    ensures shown.Rendered? && shown.template == PostDetailTemplate && shown.view.PostView?
    ensures var p := shown.view.post;
            p.id == created.target.postId && p.createdAt == Some(now)
            && p.title == FormDraft(form).title && p.author == FormDraft(form).author
            && p.content == FormDraft(form).content
  {
    ghost var newId: int;
    created, newId := NewPostAction(db, form, now);
    shown := PostDetailPage(db, created.target.postId);
  }

  /** Seeding is idempotent: on an empty table the first run inserts the two
      sample posts, and a second run changes nothing, so the table ends as
      one run leaves it. */
  method SeedTwice(db: Database, t0: Timestamp, t1: Timestamp) returns (ghost first: int, ghost second: int)
    requires db.Valid()
    modifies db
    ensures db.Valid() && |db.rows| != 0
    ensures |old(db.rows)| != 0 ==> db.rows == old(db.rows)
    ensures |old(db.rows)| == 0 ==>
      && first != second
      && db.rows == map[first := NewPost(first, SeedDrafts[0], t0),
                        second := NewPost(second, SeedDrafts[1], t0)]
  {
    first, second := Seed(db, t0);
    ghost var rowsOnce := db.rows;
    ghost var c, d := Seed(db, t1);
    assert db.rows == rowsOnce;
  }

  /** A successful update is what `GET` serves afterwards. */
  method UpdateThenGet(db: Database, postId: int, body: Body) returns (updated: Response, fetched: Response)
    requires db.Valid() && postId in db.rows && FirstBlank(body) == None
    modifies db
    ensures db.Valid()
    ensures updated.JsonResponse? && updated.status == 200
    ensures fetched == updated
  {
    UpdateOutcome(db.rows[postId], body, Title);
    updated := ApiUpdatePost(db, postId, body);
    fetched := ApiGetPost(db, postId);
  }

  /** The update handler as written: a `PUT` with a new title and an empty
      author answers 400, yet the new title is stored. */
  method PartialUpdateIsCommitted(db: Database, postId: int) returns (resp: Response)
    requires db.Valid() && postId in db.rows
    modifies db
    ensures db.Valid()
    ensures resp == JsonResponse(400, ErrorBody(EmptyFieldMessage(Author)))
    ensures db.rows == old(db.rows)[postId := old(db.rows)[postId].(title := "New")]
  {
    var body := map["title" := StrValue("New"), "author" := StrValue("")];
    PartialUpdateCommitsEarlierField(db.rows[postId]);
    resp := ApiUpdatePost(db, postId, body);
  }

  /** The corrected update handler on the same request answers the same 400
      and leaves the table as it was. */
  method AtomicUpdateRejectsWhole(db: Database, postId: int) returns (resp: Response)
    requires db.Valid() && postId in db.rows
    modifies db
    ensures db.Valid()
    ensures resp == JsonResponse(400, ErrorBody(EmptyFieldMessage(Author)))
    ensures db.rows == old(db.rows)
  {
    var body := map["title" := StrValue("New"), "author" := StrValue("")];
    UpdateOutcome(db.rows[postId], body, Title);
    assert UpdateValue(body, Author) == "";
    assert FirstBlank(body) == Some(Author);
    resp := ApiUpdatePostAtomic(db, postId, body);
  }
}
