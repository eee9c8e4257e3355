/** The `Post` entity, the table of posts, and the record a post is rendered
    as in JSON (`post_to_dict`). */
module Posts {
  import opened Wrappers
  import opened Text
  import opened Json

  /** A creation timestamp, set by the database when the row is inserted.
      It is opaque except for its ISO 8601 rendering. */
  datatype Timestamp = Timestamp(iso: string)

  /** One row of the `posts` table. */
  datatype Post = Post(
    id: int,
    title: string,
    author: string,
    content: string,
    createdAt: Option<Timestamp>)

  /** The three fields a client supplies for a new or replaced post. */
  datatype Draft = Draft(title: string, author: string, content: string)

  /** The `posts` table: rows by primary key. */
  type Table = map<int, Post>

  /** Each row is stored under its own id. */
  ghost predicate Keyed(rows: Table) {
    forall k :: k in rows ==> rows[k].id == k
  }

  /** A draft whose three fields are all non-empty. */
  predicate Complete(d: Draft) {
    d.title != "" && d.author != "" && d.content != ""
  }

  /** The row inserted for draft `d` under id `id` at database time `now`. */
  function NewPost(id: int, d: Draft, now: Timestamp): Post {
    Post(id, d.title, d.author, d.content, Some(now))
  }

  /** A post whose text fields are non-empty and already stripped, as every
      handler that writes a row leaves it. */
  predicate TidyPost(p: Post) {
    Tidy(p.title) && Tidy(p.author) && Tidy(p.content)
  }

  /** Every row of the table is tidy. */
  ghost predicate Clean(rows: Table) {
    forall k :: k in rows ==> TidyPost(rows[k])
  }

  /** A draft whose three fields are tidy. */
  predicate TidyDraft(d: Draft) {
    Tidy(d.title) && Tidy(d.author) && Tidy(d.content)
  }

  /** Storing a tidy post keeps the table clean. */
  lemma CleanStore(rows: Table, k: int, p: Post)
    requires Clean(rows) && TidyPost(p)
    ensures Clean(rows[k := p])
  {
  }

  /** The text fields a client can change. */
  datatype Field = Title | Author | Content

  /** The JSON and form key of a field. */
  function Key(f: Field): string {
    match f
    case Title => "title"
    case Author => "author"
    case Content => "content"
  }

  /** Position of a field in the order the update handler checks them. */
  function Order(f: Field): nat {
    match f
    case Title => 0
    case Author => 1
    case Content => 2
  }

  function FieldOf(p: Post, f: Field): string {
    match f
    case Title => p.title
    case Author => p.author
    case Content => p.content
  }

  /** `p` with field `f` assigned `v`; nothing else changes. */
  function WithField(p: Post, f: Field, v: string): (q: Post)
    ensures FieldOf(q, f) == v
    ensures forall g :: g != f ==> FieldOf(q, g) == FieldOf(p, g)
    ensures q.id == p.id && q.createdAt == p.createdAt
  {
    match f
    case Title => p.(title := v)
    case Author => p.(author := v)
    case Content => p.(content := v)
  }

  /** `p` with all three text fields replaced by those of `d`; the id and
      the creation time are kept. */
  function WithDraft(p: Post, d: Draft): (q: Post)
    ensures q.id == p.id && q.createdAt == p.createdAt
    ensures q.title == d.title && q.author == d.author && q.content == d.content
  {
    p.(title := d.title, author := d.author, content := d.content)
  }

  /** The JSON record of a post, `post_to_dict`: the five keys, the text
      fields as strings, and `created_at` as its ISO rendering or `null`. */
  function PostToDict(p: Post): (d: map<string, Json>)
    ensures d.Keys == {"id", "title", "author", "content", "created_at"}
    ensures d["created_at"] == JNull <==> p.createdAt == None
  {
    map[
      "id" := JInt(p.id),
      "title" := JStr(p.title),
      "author" := JStr(p.author),
      "content" := JStr(p.content),
      "created_at" := match p.createdAt
                      case Some(t) => JStr(t.iso)
                      case None => JNull
    ]
  }

  /** Reads a post back from its JSON record; `None` for a record of another shape. */
  function PostFromDict(d: map<string, Json>): Option<Post> {
    if && "id" in d && d["id"].JInt?
       && "title" in d && d["title"].JStr?
       && "author" in d && d["author"].JStr?
       && "content" in d && d["content"].JStr?
       && "created_at" in d && (d["created_at"].JNull? || d["created_at"].JStr?)
    then
      var createdAt := if d["created_at"].JNull? then None else Some(Timestamp(d["created_at"].s));
      Some(Post(d["id"].i, d["title"].s, d["author"].s, d["content"].s, createdAt))
    else
      None
  }

  /** The JSON record loses nothing: every field maps one-to-one. */
  lemma PostDictRoundTrip(p: Post)
    ensures PostFromDict(PostToDict(p)) == Some(p)
  {
  }

  /** Two posts with the same record are the same post. */
  lemma PostToDictInjective(p: Post, q: Post)
    requires PostToDict(p) == PostToDict(q)
    ensures p == q
  {
    PostDictRoundTrip(p);
    PostDictRoundTrip(q);
  }
}
