/** The HTML pages: the index, the new-post form action, the detail and edit
    pages, the edit form action and the fallback delete action. Template
    rendering is reduced to the template chosen and the context passed. */
module Pages {
  import opened Wrappers
  import opened Text
  import opened Json
  import opened Posts
  import opened Ordering
  import opened Store
  import opened Http

  /** `request.form.get(key, "").strip()`: a missing field reads as "". */
  function FormField(form: Form, key: string): (v: string)
    ensures v != "" ==> Tidy(v)
  {
    Strip(if key in form then form[key] else "")
  }

  /** A form field is rejected exactly when it is missing or all whitespace. */
  lemma FormFieldEmpty(form: Form, key: string)
    ensures FormField(form, key) == "" <==> key !in form || IsBlank(form[key])
  {
    BlankStripsToEmpty(if key in form then form[key] else "");
  }

  /** The three stripped fields of a submitted form. */
  function FormDraft(form: Form): (d: Draft)
    ensures Complete(d) ==> TidyDraft(d)
  {
    Draft(FormField(form, "title"), FormField(form, "author"), FormField(form, "content"))
  }

  /** `GET /`: the index page listing every post, newest id first; the
      table is unchanged. */
  method Index(db: Database) returns (resp: Response)
    requires db.Valid()
    modifies db
    ensures db.Valid() && db.rows == old(db.rows)
    ensures resp == Rendered(IndexTemplate, ListView(Listing(db.rows)))
  {
    var s := new Session(db);
    var posts := s.ListByIdDesc();
    resp := Rendered(IndexTemplate, ListView(posts));
    var _ := FinishScope(s, Normal, false);
  }

  /** `POST /posts/new`: with a blank or missing field the form is shown
      again with the error and the stripped values, and nothing changes;
      otherwise exactly one row is inserted under a fresh id and the client
      is sent to its detail page. */
  method NewPostAction(db: Database, form: Form, now: Timestamp) returns (resp: Response, ghost newId: int)
    requires db.Valid()
    modifies db
    ensures db.Valid()
    ensures var d := FormDraft(form);
      if !Complete(d) then
        && resp == Rendered(NewPostTemplate, FormView(FormRequiredMessage, None, d))
        && db.rows == old(db.rows)
      else
        && newId !in old(db.rows)
        && db.rows == old(db.rows)[newId := NewPost(newId, d, now)]
        && resp == Redirect(ToPostDetail(newId))
    ensures old(Clean(db.rows)) ==> Clean(db.rows)
  {
    newId := 0;
    var d := FormDraft(form);
    if !Complete(d) {
      resp := Rendered(NewPostTemplate, FormView(FormRequiredMessage, None, d));
      return;
    }
    var s := new Session(db);
    var id := s.Add(d, now);
    newId := id;
    resp := Redirect(ToPostDetail(id));
    if old(Clean(db.rows)) {
      CleanStore(old(db.rows), id, NewPost(id, d, now));
    }
    var _ := FinishScope(s, Normal, false);
  }

  /** `GET /posts/<id>`: the detail page of the post, or 404; the table is
      unchanged. */
  method PostDetailPage(db: Database, postId: int) returns (resp: Response)
    requires db.Valid()
    modifies db
    ensures db.Valid() && db.rows == old(db.rows)
    ensures postId in db.rows ==> resp == Rendered(PostDetailTemplate, PostView(db.rows[postId]))
    ensures postId !in db.rows ==> resp == Aborted(404)
  {
    var s := new Session(db);
    var p := s.Get(postId);
    if p == None {
      resp := Aborted(404);
      var _ := FinishScope(s, Raised, false);
      return;
    }
    resp := Rendered(PostDetailTemplate, PostView(p.value));
    var _ := FinishScope(s, Normal, false);
  }

  /** `GET /posts/<id>/edit`: the edit form filled with the post, or 404;
      the table is unchanged. */
  method EditPostPage(db: Database, postId: int) returns (resp: Response)
    requires db.Valid()
    modifies db
    ensures db.Valid() && db.rows == old(db.rows)
    ensures postId in db.rows ==> resp == Rendered(EditPostTemplate, PostView(db.rows[postId]))
    ensures postId !in db.rows ==> resp == Aborted(404)
  {
    var s := new Session(db);
    var p := s.Get(postId);
    if p == None {
      resp := Aborted(404);
      var _ := FinishScope(s, Raised, false);
      return;
    }
    resp := Rendered(EditPostTemplate, PostView(p.value));
    var _ := FinishScope(s, Normal, false);
  }

  /** `p.title, p.author, p.content = title, author, content` on a loaded
      post. */
  method AssignDraft(s: Session, postId: int, d: Draft)
    requires !s.closed && s.Valid() && postId in s.pending
    modifies s
    ensures !s.closed && s.Valid()
    ensures s.pending == old(s.pending)[postId := WithDraft(old(s.pending)[postId], d)]
  {
    s.Assign(postId, Title, d.title);
    s.Assign(postId, Author, d.author);
    s.Assign(postId, Content, d.content);
  }

  /** `POST /posts/<id>/edit`: the form is checked before the post is looked
      up, so a blank field re-renders the edit form (with the id and the
      stripped values) even for an id that does not exist; a complete form
      for an absent id is 404; otherwise all three fields are replaced, id
      and creation time are kept, and the client is sent to the detail page.
      Only the edited row changes. */
  method EditPostAction(db: Database, postId: int, form: Form) returns (resp: Response)
    requires db.Valid()
    modifies db
    ensures db.Valid()
    ensures var d := FormDraft(form);
      if !Complete(d) then
        && resp == Rendered(EditPostTemplate, FormView(FormRequiredMessage, Some(postId), d))
        && db.rows == old(db.rows)
      else if postId !in old(db.rows) then
        && resp == Aborted(404)
        && db.rows == old(db.rows)
      else
        && db.rows == old(db.rows)[postId := WithDraft(old(db.rows)[postId], d)]
        && resp == Redirect(ToPostDetail(postId))
    ensures old(Clean(db.rows)) ==> Clean(db.rows)
  {
    var d := FormDraft(form);
    if !Complete(d) {
      resp := Rendered(EditPostTemplate, FormView(FormRequiredMessage, Some(postId), d));
      return;
    }
    var s := new Session(db);
    var p := s.Get(postId);
    if p == None {
      resp := Aborted(404);
      var _ := FinishScope(s, Raised, false);
      return;
    }
    AssignDraft(s, postId, d);
    if old(Clean(db.rows)) {
      CleanStore(old(db.rows), postId, WithDraft(p.value, d));
    }
    resp := Redirect(ToPostDetail(postId));
    var _ := FinishScope(s, Normal, false);
  }

  /** `POST /posts/<id>/delete`: the row is removed if it exists, and the
      client is sent to the index either way. */
  method DeletePostAction(db: Database, postId: int) returns (resp: Response)
    requires db.Valid()
    modifies db
    ensures db.Valid()
    ensures db.rows == old(db.rows) - {postId}
    ensures resp == Redirect(ToIndex)
    ensures old(Clean(db.rows)) ==> Clean(db.rows)
  {
    var s := new Session(db);
    var p := s.Get(postId);
    if p.Some? {
      s.Delete(postId);
    } else {
      assert s.pending - {postId} == s.pending;
    }
    var _ := FinishScope(s, Normal, false);
    resp := Redirect(ToIndex);
  }
}
