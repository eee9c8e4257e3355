# flask_blogger post store, modelled in Dafny

This project models the core of flask_blogger. The blog keeps its posts in one
SQL table, with integer ids. Two sets of request handlers read and write that
table:

- a JSON API under `/api/posts`: list, get, create, partial update, delete;
- HTML pages: the index, the new-post form, the detail and edit pages, the
  edit form, and a fallback delete form.

Every handler does its table work inside one `get_session()` scope; API
create and the two form actions validate their fields before opening it, so a
rejected request opens no scope at all. The scope commits when its body
exits normally, rolls back and re-raises when an exception leaves it, and
always closes the session; the API update checks its fields inside the scope
and returns its 400 normally, so that scope commits (see Findings). At start-up the program seeds two sample
posts, but only into an empty table.

The two core files, `app.py` and `render251016/app.py`, are identical line
for line, so one model covers both. The JSON side cites `app.py`; seeding and
the HTML side cite `render251016/app.py`.

Module layout:

- `text.dfy` (`Text`): Python's `str.strip()` and `str.isspace()`. This is
  the full whitespace set Python uses, not just ASCII.
- `posts.dfy` (`Posts`): the `Post` row, the table as `map<int, Post>`,
  `post_to_dict` and its inverse.
- `ordering.dfy` (`Ordering`): `ORDER BY id DESC`, given as a specification
  function. The sort loop of the engine model is proved equal to it.
- `store.dfy` (`Store`): the committed table (`Database`), one session
  (`Session`, with its pending table and closed flag), and
  `FinishScope`, the exit of `get_session()`. It also holds seeding.
- `http.dfy` (`Http`): responses as data. These are JSON with a status,
  a rendered template with its context, a redirect, or an abort.
- `api.dfy` (`Api`): the JSON handlers, and the partial update as a pure
  function.
- `pages.dfy` (`Pages`): the HTML handlers.
- `scenarios.dfy` (`Scenarios`): request sequences, such as create then
  get, delete then get, deleting twice, seeding twice, and the partial
  update that answers 400 but still commits.

Every handler that writes keeps the invariant `Clean`: each stored field is
non-empty and already stripped.

## Model

| member | source | states |
|---|---|---|
| Text.TrimStartSpec | app.py:85-87 | leading-whitespace removal returns a suffix whose dropped prefix is all whitespace and which does not start with whitespace |
| Text.TrimEndSpec | app.py:85-87 | trailing-whitespace removal returns a prefix whose dropped suffix is all whitespace and which does not end with whitespace |
| Text.Strip | app.py:85-87 | the stripped string is no longer than the input and has no whitespace at either end |
| Text.StripIsInfix | app.py:85-87 | the stripped string is an infix of the input with all-whitespace margins |
| Text.StripUnique | app.py:85-87 | an infix with blank margins and no outer whitespace is the stripped string |
| Text.BlankStripsToEmpty | app.py:88 | a value strips to "" exactly when it is all whitespace, so `not value.strip()` means blank |
| Text.StripFixesNoOuterSpace | app.py:85-87 | a string with no outer whitespace is unchanged by strip |
| Text.StripIdempotent | app.py:107 | stripping twice gives the same as stripping once |
| Text.TidyIffStripped | app.py:85-91 | stored values are exactly the non-empty results of strip |
| Text.TrimStartAt | app.py:85-87 | when the leading whitespace is exactly `s[..i]`, trimming the start gives `s[i..]` |
| Text.TrimEndAt | app.py:85-87 | when the trailing whitespace is exactly `s[j..]`, trimming the end gives `s[..j]` |
| Posts.WithField | app.py:107 | assigning one field changes that field only; id and created_at are kept |
| Posts.WithDraft | render251016/app.py:183 | the tuple assignment replaces all three text fields and keeps id and created_at |
| Posts.PostToDict | app.py:62-66 | the record has exactly the keys id, title, author, content, created_at, and created_at is null exactly when unset |
| Posts.PostDictRoundTrip | render251016/app.py:62-66 | the record maps every field one-to-one: reading it back gives the post |
| Posts.PostToDictInjective | render251016/app.py:62-66 | two posts with the same record are the same post |
| Ordering.MaxOf | app.py:27 | the largest key is in the set and bounds every key |
| Ordering.KeysDesc | app.py:71 | the keys in strictly descending order, with each key exactly once |
| Ordering.DescendingUnique | app.py:71 | two strictly descending sequences with the same elements are equal |
| Ordering.InsertDesc | app.py:71 | inserting a new key keeps the sequence strictly descending and adds exactly that key |
| Ordering.SortKeysDesc | app.py:71 | the sort loop produces exactly the specified descending key order |
| Ordering.ListingExact | app.py:70-72 | the listing holds every post of the table exactly once, with strictly descending ids |
| Api.ListRecords | app.py:70-72 | the list response holds one record per row; each record reads back as the post listed at its position, the records' ids are strictly descending, and every post of the table is among them |
| Store.NextRowId | app.py:27 | the new id is fresh: 1 for an empty table, otherwise one more than the largest id |
| Store.Database.constructor | app.py:17-19 | the database starts with the given keyed table |
| Store.Session.constructor | app.py:37 | a new session sees the committed table and is open |
| Store.Session.Get | app.py:77 | the post with that key, or none when the key is absent |
| Store.Session.Count | render251016/app.py:49 | the number of rows the session sees |
| Store.Session.Add | app.py:91-93 | one row is added under a fresh id with the given fields and the database time; nothing else changes |
| Store.Session.Delete | app.py:124 | exactly that row is removed |
| Store.Session.Assign | app.py:107 | one field of one loaded row is assigned; nothing else changes |
| Store.Session.ListByIdDesc | app.py:71 | the session's rows in descending id order |
| Store.Session.Commit | app.py:40 | on success the database takes the pending table; on failure it is untouched |
| Store.Session.Rollback | app.py:42 | pending changes are discarded |
| Store.Session.Close | app.py:45 | the session is closed and nothing else changes |
| Store.FinishScope | app.py:35-45 | a normal exit commits; an exception or a failed commit leaves the table as before the scope and propagates; the session is closed on every path |
| Store.SeedDraftTidy | render251016/app.py:51-54 | the sample posts' fields are non-empty and stripped |
| Store.Seed | render251016/app.py:48-55 | on an empty table exactly the two sample posts are inserted under distinct ids, and any other table is unchanged; the table is then non-empty |
| Api.JsonField | app.py:85-87 | a create field read from the body is either "" or non-empty and stripped |
| Api.JsonFieldEmpty | app.py:85-88 | a create field is rejected exactly when it is missing, null or all whitespace |
| Api.UpdateValue | app.py:105-107 | an update value is either "" or non-empty and stripped |
| Api.FirstBlank | app.py:104-115 | the first of title, author, content that the body gives blank; no earlier field is blank, and none at all when the result is none |
| Api.ApplyUpdate | app.py:104-116 | the partial update never changes id or created_at |
| Api.UpdateOutcome | app.py:104-116 | the error names the first blank field; a field takes its stripped value exactly when its key is present and comes before that field; every other field keeps its value, even on error |
| Api.UpdateKeepsAbsentFields | app.py:104-115 | a key absent from the body leaves its field unchanged |
| Api.UpdateSetsPresentFields | app.py:104-116 | a successful update sets every present key's field to its stripped value |
| Api.UpdateKeepsTidy | app.py:104-115 | an update keeps fields non-empty and stripped |
| Api.PartialUpdateCommitsEarlierField | app.py:104-111 | a new title with an empty author gives "author cannot be empty", yet the post carries the new title |
| Api.ApplyUpdateAtomic | app.py:104-116 | the corrected update answers as the original; on error the post is unchanged; on success it equals the original's result |
| Api.ApiListPosts | app.py:70-72 | 200 with the records of all posts in descending id order; the table is unchanged |
| Api.ApiGetPost | app.py:76-80 | 200 with the post's record, or 404 `{"error": "Not found"}`; the table is unchanged |
| Api.ApiCreatePost | app.py:84-94 | a blank or missing field gives 400 "title, author, content are required" and no change; otherwise exactly one new row under a fresh id with the stripped values, other rows unchanged, and 201 with its record |
| Api.AssignField | app.py:104-107 | one field block: a present key is stripped and checked, then assigned when not blank |
| Api.AssignFields | app.py:104-115 | the three field blocks in order, stopping at the first error, turn the loaded post into the partial-update result |
| Api.ApiUpdatePost | app.py:99-116 | an absent id gives 404 and no change; otherwise the row becomes the partial-update result, which is committed for a 200 and for a 400 naming the first blank field |
| Api.ApiUpdatePostAtomic | app.py:99-116 | as the update, but a 400 leaves the table unchanged |
| Api.ApiDeletePost | app.py:120-125 | an absent id gives 404 and no change; otherwise exactly that row is removed and `{"status": "deleted", "id": id}` is returned |
| Pages.FormField | render251016/app.py:143-145 | a form field is either "" or non-empty and stripped |
| Pages.FormFieldEmpty | render251016/app.py:143-146 | a form field is rejected exactly when it is missing or all whitespace |
| Pages.FormDraft | render251016/app.py:143-146 | a complete form gives non-empty, stripped fields |
| Pages.Index | render251016/app.py:133-135 | the index template rendered with all posts in descending id order; the table is unchanged |
| Pages.NewPostAction | render251016/app.py:143-153 | a blank field re-renders the form with "All fields are required." and the stripped values, with no change; otherwise exactly one new row under a fresh id, and a redirect to its detail page |
| Pages.PostDetailPage | render251016/app.py:157-161 | the detail template with the post, or abort 404; the table is unchanged |
| Pages.EditPostPage | render251016/app.py:165-169 | the edit template with the post, or abort 404; the table is unchanged |
| Pages.AssignDraft | render251016/app.py:183 | all three fields of the loaded post are replaced |
| Pages.EditPostAction | render251016/app.py:173-184 | a blank field re-renders the edit form with the id and the stripped values, with no change, even for an absent id; a complete form for an absent id aborts with 404 and no change; otherwise all three fields are replaced, id and created_at are kept, only that row changes, and the client is redirected to the detail page |
| Pages.DeletePostAction | render251016/app.py:188-193 | the row is removed if present and nothing else changes; the client is always redirected to the index |
| Scenarios.CreateThenGet | app.py:84-94 | after a valid create, getting the id in the returned record gives 200 with the same record |
| Scenarios.DeleteThenGet | app.py:120-125 | after a delete, get answers 404 and the index lists one post fewer, none with that id |
| Scenarios.DeleteTwice | app.py:120-125 | a second API delete answers 404 and changes nothing |
| Scenarios.FormDeleteTwice | render251016/app.py:188-193 | deleting the same id twice through the form has the effect of deleting it once |
| Scenarios.NewPostThenDetail | render251016/app.py:149-161 | the post created through the form is what its detail page shows, stamped with the insertion time |
| Scenarios.SeedTwice | render251016/app.py:48-55 | seeding twice has the effect of seeding once: on an empty table exactly the two sample posts of the first run, under distinct ids, otherwise the table unchanged |
| Scenarios.UpdateThenGet | app.py:99-116 | after a successful update, get serves the same record |
| Scenarios.PartialUpdateIsCommitted | app.py:104-115 | a PUT with a new title and an empty author answers 400 "author cannot be empty", yet the new title is committed |
| Scenarios.AtomicUpdateRejectsWhole | app.py:104-115 | the corrected update answers the same 400 and leaves the table unchanged |

## Left out

- Flask plumbing is not modelled: routing, `request.get_json` and `request.form`, `jsonify`, `render_template`, `url_for` and `app.run`. Handlers take the parsed body or form as a parameter and return a response value.
- Route ids are plain integers. The `<int:...>` converter's parsing (which accepts no sign) is not modelled.
- Ids at or beyond 2^63 are not modelled as failures. The route converter accepts them, but SQLite's INTEGER is 64 bits wide, so the driver raises an overflow error inside `s.get` (app.py:77). The scope then rolls back and re-raises (app.py:41-43), and the client gets a 500. The model answers 404 for such ids, or redirects for the form delete (render251016/app.py:188-193). The table is unchanged either way.
- SQLAlchemy and SQLite internals are not modelled: engine creation, the session factory, the identity map, autoflush, `create_all` and `BLOG_DB_URL`. The table is a map, and a session's changes are a pending copy of it.
- Store.NextRowId: the model always picks one more than the largest id. SQLite falls back to a random unused id once the largest id reaches 2^63 - 1, which is not modelled. Handler contracts promise only that the new id is fresh, because SQLite can reuse the id of a deleted highest row.
- Storage failures inside a handler body are not modelled. A failing commit is modelled, but only in `FinishScope`; the handlers pass it a successful commit.
- Timestamps are opaque values (`Timestamp`). The clock is the `now` parameter, and `isoformat()` is the `iso` field. `server_default=func.now()` is set once on insert and never changed.
- JSON bodies carry only string and null values. `str()` of numbers, booleans, lists or objects in the update is not modelled; null becomes "None", as `str(None)` does.
- Request bodies are always JSON objects here. The source falls back to `{}` only when the body is missing, unparsable or falsy. A truthy body that is not an object (a list or a string) raises in create, because `data.get` does not exist on it. In update such a body raises or is ignored, depending on what it contains. A non-string truthy create value (a number, say) also raises at `.strip()`. None of these failures is modelled.
- Column widths `String(200)` and `String(100)` are not modelled, because nothing enforces them.
- Concurrency between requests is not modelled; it is left to the database engine.
- `new_post_page` is not modelled. It only renders the empty form and touches no state.
- Template content (HTML) is not modelled. A rendered page is a template name plus the context it is given.

## Findings

| source | as written | input that shows it | evidently intended | confidence | as-written member | corrected member |
|---|---|---|---|---|---|---|
| app.py:104-115 with app.py:38-40 | the 400 for a blank field is returned inside the `get_session()` block, which is a normal exit, so the commit runs and fields assigned before the blank one are stored | `PUT /api/posts/<id>` with body `{"title": "New", "author": ""}` on an existing post: the response is 400 "author cannot be empty", yet the title becomes "New" | a rejected update changes nothing | not executed; follows from the commit-on-normal-exit scope | Api.ApiUpdatePost, Api.PartialUpdateCommitsEarlierField, Scenarios.PartialUpdateIsCommitted | Api.ApiUpdatePostAtomic, Api.ApplyUpdateAtomic, Scenarios.AtomicUpdateRejectsWhole |
