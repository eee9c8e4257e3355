/** The JSON API under `/api/posts`: list, get, create, partial update and
    delete. Each handler opens one session and leaves it through
    `FinishScope`; returning a response from inside the `with` block is a
    normal exit, so the session commits. */
module Api {
  import opened Wrappers
  import opened Text
  import opened Json
  import opened Posts
  import opened Ordering
  import opened Store
  import opened Http

  /** `(data.get(key) or "").strip()`: a missing key and a `null` value both
      read as the empty string. */
  function JsonField(body: Body, key: string): (v: string)
    ensures v != "" ==> Tidy(v)
  {
    Strip(if key in body && body[key].StrValue? then body[key].s else "")
  }

  /** A create field is rejected exactly when it is missing, `null` or all
      whitespace. */
  lemma JsonFieldEmpty(body: Body, key: string)
    ensures JsonField(body, key) == "" <==>
      key !in body || body[key] == NullValue || IsBlank(body[key].s)
  {
    BlankStripsToEmpty(if key in body && body[key].StrValue? then body[key].s else "");
  }

  /** The three create fields of a request body. */
  function CreateDraft(body: Body): Draft {
    Draft(JsonField(body, "title"), JsonField(body, "author"), JsonField(body, "content"))
  }

  /** `str(value)` for a value of the update body: `null` becomes "None". */
  function Coerce(v: BodyValue): string {
    match v
    case NullValue => "None"
    case StrValue(s) => s
  }

  /** The stripped value the update body gives for field `f`. */
  function UpdateValue(body: Body, f: Field): (v: string)
    requires Key(f) in body
    ensures v != "" ==> Tidy(v)
  {
    Strip(Coerce(body[Key(f)]))
  }

  /** Field `f` is present in the update body but blank after stripping. */
  predicate BlankIn(body: Body, f: Field) {
    Key(f) in body && UpdateValue(body, f) == ""
  }

  /** The first field, in the order title, author, content, that the update
      body gives a blank value. */
  function FirstBlank(body: Body): (r: Option<Field>)
    ensures r.Some? ==> BlankIn(body, r.value)
    ensures r.Some? ==> forall g :: Order(g) < Order(r.value) ==> !BlankIn(body, g)
    ensures r.None? ==> forall g :: !BlankIn(body, g)
  {
    if BlankIn(body, Title) then Some(Title)
    else if BlankIn(body, Author) then Some(Author)
    else if BlankIn(body, Content) then Some(Content)
    else None
  }

  /** The error message for a blank field in an update. */
  function EmptyFieldMessage(f: Field): string {
    Key(f) + " cannot be empty"
  }

  /** The state of a partial update part-way: the post as assigned so far,
      and the error once one has been returned. */
  datatype UpdateResult = UpdateResult(post: Post, error: Option<string>)

  /** One `if "<field>" in data:` block of the update handler. Once an error
      has been returned, later blocks do not run. */
  function UpdateStep(r: UpdateResult, body: Body, f: Field): UpdateResult {
    if r.error.Some? || Key(f) !in body then r
    else if UpdateValue(body, f) == "" then UpdateResult(r.post, Some(EmptyFieldMessage(f)))
    else UpdateResult(WithField(r.post, f, UpdateValue(body, f)), None)
  }

  /** The partial update of `p` as the handler performs it: title, then
      author, then content, stopping at the first blank field. The post
      returned is the one that is committed. */
  function ApplyUpdate(p: Post, body: Body): (u: UpdateResult)
    ensures u.post.id == p.id && u.post.createdAt == p.createdAt
  {
    var r := UpdateResult(p, None);
    UpdateStep(UpdateStep(UpdateStep(r, body, Title), body, Author), body, Content)
  }

  /** What a partial update does, field by field: the error names the first
      blank field, if any; a field takes its stripped new value exactly when
      it is in the body and comes before that first blank field (or there is
      none); every other field keeps its old value, even when the response
      is an error. */
  lemma UpdateOutcome(p: Post, body: Body, g: Field)
    ensures ApplyUpdate(p, body).error ==
      match FirstBlank(body)
      case Some(f) => Some(EmptyFieldMessage(f))
      case None => None
    ensures FieldOf(ApplyUpdate(p, body).post, g) ==
      if Key(g) in body && (FirstBlank(body).None? || Order(g) < Order(FirstBlank(body).value))
      then UpdateValue(body, g)
      else FieldOf(p, g)
  {
    var r1 := UpdateStep(UpdateResult(p, None), body, Title);
    var r2 := UpdateStep(r1, body, Author);
    assert ApplyUpdate(p, body) == UpdateStep(r2, body, Content);
  }

  /** A key missing from the update body leaves its field as it was. */
  lemma UpdateKeepsAbsentFields(p: Post, body: Body, g: Field)
    requires Key(g) !in body
    ensures FieldOf(ApplyUpdate(p, body).post, g) == FieldOf(p, g)
  {
    UpdateOutcome(p, body, g);
  }

  /** An update that succeeds sets every present field to its stripped value. */
  lemma UpdateSetsPresentFields(p: Post, body: Body, g: Field)
    requires ApplyUpdate(p, body).error == None && Key(g) in body
    ensures FieldOf(ApplyUpdate(p, body).post, g) == UpdateValue(body, g)
  {
    UpdateOutcome(p, body, g);
  }

  /** A partial update keeps a tidy post tidy. */
  lemma UpdateKeepsTidy(p: Post, body: Body)
    requires TidyPost(p)
    ensures TidyPost(ApplyUpdate(p, body).post)
  {
    var r1 := UpdateStep(UpdateResult(p, None), body, Title);
    var r2 := UpdateStep(r1, body, Author);
    assert TidyPost(r1.post) && TidyPost(r2.post);
  }

  /** The update returns 400 and still changes the row: with a new title
      and an empty author, the title is assigned before the author is
      checked. */
  lemma PartialUpdateCommitsEarlierField(p: Post)
    ensures var body := map["title" := StrValue("New"), "author" := StrValue("")];
            ApplyUpdate(p, body) == UpdateResult(p.(title := "New"), Some(EmptyFieldMessage(Author)))
  {
    var body := map["title" := StrValue("New"), "author" := StrValue("")];
    StripFixesNoOuterSpace("New");
    assert UpdateValue(body, Title) == "New";
    var r1 := UpdateStep(UpdateResult(p, None), body, Title);
    assert r1 == UpdateResult(p.(title := "New"), None);
    assert UpdateValue(body, Author) == "";
    var r2 := UpdateStep(r1, body, Author);
    assert ApplyUpdate(p, body) == UpdateStep(r2, body, Content) == r2;
  }

  /** The update as evidently intended: every present field is checked
      before any is assigned, so a rejected update changes nothing. It
      answers exactly as `ApplyUpdate` does and differs only in what a
      rejected update leaves behind. */
  function ApplyUpdateAtomic(p: Post, body: Body): (u: UpdateResult)
    ensures u.error == ApplyUpdate(p, body).error
    ensures u.error.Some? ==> u.post == p
    ensures u.error.None? ==> u.post == ApplyUpdate(p, body).post
  {
    UpdateOutcome(p, body, Title);
    match FirstBlank(body)
    case Some(f) => UpdateResult(p, Some(EmptyFieldMessage(f)))
    case None => ApplyUpdate(p, body)
  }

  /** The body of the list response, read record by record: one record per
      post of the table, each reading back as the post listed at its
      position, with strictly descending ids, and every post of the table
      among them. */
  lemma ListRecords(rows: Table)
    requires Keyed(rows)
    ensures var r := PostDicts(Listing(rows));
      && |r| == |rows|
      && (forall i :: 0 <= i < |r| ==>
            r[i].JObject? && PostFromDict(r[i].fields) == Some(Listing(rows)[i]))
      && (forall i, j :: 0 <= i < j < |r| ==>
            r[i].fields["id"].i > r[j].fields["id"].i)
      && (forall p :: p in rows.Values <==>
            exists i :: 0 <= i < |r| && PostFromDict(r[i].fields) == Some(p))
  {
    var l := Listing(rows);
    var r := PostDicts(l);
    ListingExact(rows);
    forall i | 0 <= i < |r|
      ensures r[i].JObject? && PostFromDict(r[i].fields) == Some(l[i])
      ensures r[i].fields["id"] == JInt(l[i].id)
    {
      PostDictRoundTrip(l[i]);
    }
    forall p | p in rows.Values
      ensures exists i :: 0 <= i < |r| && PostFromDict(r[i].fields) == Some(p)
    {
      var i :| 0 <= i < |l| && l[i] == p;
      assert PostFromDict(r[i].fields) == Some(p);
    }
  }

  /** `GET /api/posts`: every post, newest id first; the table is unchanged. */
  method ApiListPosts(db: Database) returns (resp: Response)
    requires db.Valid()
    modifies db
    ensures db.Valid() && db.rows == old(db.rows)
    ensures resp == JsonResponse(200, JArray(PostDicts(Listing(db.rows))))
  {
    var s := new Session(db);
    var posts := s.ListByIdDesc();
    resp := JsonResponse(200, JArray(PostDicts(posts)));
    var _ := FinishScope(s, Normal, false);
  }

  /** `GET /api/posts/<id>`: the post's record, or 404; the table is unchanged. */
  method ApiGetPost(db: Database, postId: int) returns (resp: Response)
    requires db.Valid()
    modifies db
    ensures db.Valid() && db.rows == old(db.rows)
    ensures postId in db.rows ==> resp == JsonResponse(200, JObject(PostToDict(db.rows[postId])))
    ensures postId !in db.rows ==> resp == JsonResponse(404, ErrorBody(NotFoundMessage))
  {
    var s := new Session(db);
    var p := s.Get(postId);
    if p == None {
      resp := JsonResponse(404, ErrorBody(NotFoundMessage));
    } else {
      resp := JsonResponse(200, JObject(PostToDict(p.value)));
    }
    var _ := FinishScope(s, Normal, false);
  }

  /** `POST /api/posts`: with a blank or missing field, 400 and no change
      (no session is opened); otherwise exactly one new row under a fresh id,
      holding the stripped values, every other row unchanged, and 201 with
      its record. */
  method ApiCreatePost(db: Database, body: Body, now: Timestamp) returns (resp: Response, ghost newId: int)
    requires db.Valid()
    modifies db
    ensures db.Valid()
    ensures var d := CreateDraft(body);
      if !Complete(d) then
        && resp == JsonResponse(400, ErrorBody(CreateRequiredMessage))
        && db.rows == old(db.rows)
      else
        && newId !in old(db.rows)
        && db.rows == old(db.rows)[newId := NewPost(newId, d, now)]
        && resp == JsonResponse(201, JObject(PostToDict(db.rows[newId])))
    ensures old(Clean(db.rows)) ==> Clean(db.rows)
  {
    newId := 0;
    var d := CreateDraft(body);
    if !Complete(d) {
      resp := JsonResponse(400, ErrorBody(CreateRequiredMessage));
      return;
    }
    var s := new Session(db);
    var id := s.Add(d, now);
    newId := id;
    resp := JsonResponse(201, JObject(PostToDict(s.pending[id])));
    var _ := FinishScope(s, Normal, false);
  }

  /** One field block of the update handler, run on the session: a present
      field is stripped and checked, and assigned to the loaded post when
      it is not blank. */
  method AssignField(s: Session, postId: int, body: Body, f: Field) returns (error: Option<string>)
    requires !s.closed && s.Valid() && postId in s.pending
    modifies s
    ensures !s.closed && s.Valid() && postId in s.pending
    ensures var r := UpdateStep(UpdateResult(old(s.pending)[postId], None), body, f);
            s.pending == old(s.pending)[postId := r.post] && error == r.error
  {
    error := None;
    if Key(f) in body {
      var v := UpdateValue(body, f);
      if v == "" {
        assert s.pending == s.pending[postId := s.pending[postId]];
        return Some(EmptyFieldMessage(f));
      }
      s.Assign(postId, f, v);
    } else {
      assert s.pending == s.pending[postId := s.pending[postId]];
    }
  }

  /** The three field blocks of the update handler in order, each run only
      while no error has been returned: the loaded post becomes
      `ApplyUpdate` of it. */
  method AssignFields(s: Session, postId: int, body: Body) returns (error: Option<string>)
    requires !s.closed && s.Valid() && postId in s.pending
    modifies s
    ensures !s.closed && s.Valid() && postId in s.pending
    ensures var u := ApplyUpdate(old(s.pending)[postId], body);
            s.pending == old(s.pending)[postId := u.post] && error == u.error
  {
    ghost var r1 := UpdateStep(UpdateResult(s.pending[postId], None), body, Title);
    error := AssignField(s, postId, body, Title);
    assert r1 == UpdateResult(s.pending[postId], error);
    ghost var r2 := UpdateStep(r1, body, Author);
    if error == None {
      error := AssignField(s, postId, body, Author);
    }
    assert r2 == UpdateResult(s.pending[postId], error);
    if error == None {
      error := AssignField(s, postId, body, Content);
    }
  }

  /** `PUT /api/posts/<id>`: 404 and no change for an absent id; otherwise
      the row becomes `ApplyUpdate` of it, which is committed whether the
      response is 200 with the updated record or 400 naming the first blank
      field. */
  method ApiUpdatePost(db: Database, postId: int, body: Body) returns (resp: Response)
    requires db.Valid()
    modifies db
    ensures db.Valid()
    ensures postId !in old(db.rows) ==>
      && resp == JsonResponse(404, ErrorBody(NotFoundMessage))
      && db.rows == old(db.rows)
    ensures postId in old(db.rows) ==>
      var u := ApplyUpdate(old(db.rows)[postId], body);
      && db.rows == old(db.rows)[postId := u.post]
      && resp == match u.error
                 case Some(message) => JsonResponse(400, ErrorBody(message))
                 case None => JsonResponse(200, JObject(PostToDict(u.post)))
    ensures old(Clean(db.rows)) ==> Clean(db.rows)
  {
    var s := new Session(db);
    var p := s.Get(postId);
    if p == None {
      resp := JsonResponse(404, ErrorBody(NotFoundMessage));
      var _ := FinishScope(s, Normal, false);
      return;
    }
    var error := AssignFields(s, postId, body);
    if error.Some? {
      resp := JsonResponse(400, ErrorBody(error.value));
    } else {
      resp := JsonResponse(200, JObject(PostToDict(s.pending[postId])));
    }
    if old(Clean(db.rows)) {
      UpdateKeepsTidy(p.value, body);
    }
    var _ := FinishScope(s, Normal, false);
  }

  /** The update handler as evidently intended: as `ApiUpdatePost`, but a
      400 leaves the table unchanged. */
  method ApiUpdatePostAtomic(db: Database, postId: int, body: Body) returns (resp: Response)
    requires db.Valid()
    modifies db
    ensures db.Valid()
    ensures postId !in old(db.rows) ==>
      && resp == JsonResponse(404, ErrorBody(NotFoundMessage))
      && db.rows == old(db.rows)
    ensures postId in old(db.rows) ==>
      var u := ApplyUpdateAtomic(old(db.rows)[postId], body);
      && db.rows == old(db.rows)[postId := u.post]
      && resp == match u.error
                 case Some(message) => JsonResponse(400, ErrorBody(message))
                 case None => JsonResponse(200, JObject(PostToDict(u.post)))
    ensures resp.status == 400 ==> db.rows == old(db.rows)
    ensures old(Clean(db.rows)) ==> Clean(db.rows)
  {
    var s := new Session(db);
    var p := s.Get(postId);
    if p == None {
      resp := JsonResponse(404, ErrorBody(NotFoundMessage));
      var _ := FinishScope(s, Normal, false);
      return;
    }
    UpdateOutcome(p.value, body, Title);
    var blank := FirstBlank(body);
    if blank.Some? {
      resp := JsonResponse(400, ErrorBody(EmptyFieldMessage(blank.value)));
      assert old(db.rows)[postId := p.value] == old(db.rows);
      var _ := FinishScope(s, Normal, false);
      return;
    }
    var _ := AssignFields(s, postId, body);
    resp := JsonResponse(200, JObject(PostToDict(s.pending[postId])));
    if old(Clean(db.rows)) {
      UpdateKeepsTidy(p.value, body);
    }
    var _ := FinishScope(s, Normal, false);
  }

  /** `DELETE /api/posts/<id>`: 404 and no change for an absent id; otherwise
      only that row is removed and the confirmation is returned. */
  method ApiDeletePost(db: Database, postId: int) returns (resp: Response)
    requires db.Valid()
    modifies db
    ensures db.Valid()
    ensures postId !in old(db.rows) ==>
      && resp == JsonResponse(404, ErrorBody(NotFoundMessage))
      && db.rows == old(db.rows)
    ensures postId in old(db.rows) ==>
      && resp == JsonResponse(200, DeletedBody(postId))
      && db.rows == old(db.rows) - {postId}
    ensures old(Clean(db.rows)) ==> Clean(db.rows)
  {
    var s := new Session(db);
    var p := s.Get(postId);
    if p == None {
      resp := JsonResponse(404, ErrorBody(NotFoundMessage));
      var _ := FinishScope(s, Normal, false);
      return;
    }
    s.Delete(postId);
    resp := JsonResponse(200, DeletedBody(postId));
    var _ := FinishScope(s, Normal, false);
  }
}
