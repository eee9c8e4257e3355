/** The persistence gateway: the committed table, the session a request works
    in, the `get_session` scope that commits or rolls back, and first-run
    seeding. The relational engine is reduced to what the handlers observe. */
module Store {
  import opened Wrappers
  import opened Text
  import opened Posts
  import opened Ordering

  /** The id the engine gives an inserted row when none is supplied: one more
      than the largest id in the table, or 1 for an empty table (the rowid
      rule of SQLite for an integer primary key). */
  method NextRowId(ks: set<int>) returns (id: int)
    ensures id !in ks
    ensures ks == {} ==> id == 1
    ensures ks != {} ==> id == MaxOf(ks) + 1
  {
    if ks == {} {
      return 1;
    }
    NonEmptyHasElement(ks);
    var m :| m in ks;
    var rest := ks - {m};
    while rest != {}
      invariant rest <= ks && m in ks
      invariant forall k :: k in ks && k !in rest ==> k <= m
      decreases rest
    {
      NonEmptyHasElement(rest);
      var k :| k in rest;
      if k > m {
        m := k;
      }
      rest := rest - {k};
    }
    id := m + 1;
  }

  /** The database: the committed contents of the `posts` table. */
  class Database {
    var rows: Table

    ghost predicate Valid()
      reads this
    {
      Keyed(rows)
    }

    constructor (initial: Table)
      requires Keyed(initial)
      ensures Valid() && rows == initial
    {
      rows := initial;
    }
  }

  /** A session (`SessionLocal()`): the table as the session sees it,
      uncommitted changes included, and whether it has been closed. Loaded
      posts are changed in place through `Assign`. */
  class Session {
    const db: Database
    var pending: Table
    var closed: bool

    ghost predicate Valid()
      reads this
    {
      Keyed(pending)
    }

    constructor (db: Database)
      requires db.Valid()
      ensures this.db == db && pending == db.rows && !closed && Valid()
    {
      this.db := db;
      pending := db.rows;
      closed := false;
    }

    /** `s.get(Post, id)`: the post with that primary key, if any. */
    method Get(id: int) returns (p: Option<Post>)
      requires !closed
      ensures p.Some? <==> id in pending
      ensures p.Some? ==> p.value == pending[id]
    {
      p := if id in pending then Some(pending[id]) else None;
    }

    /** `select count(Post.id)`. */
    method Count() returns (n: nat)
      requires !closed
      ensures n == |pending|
    {
      n := |pending|;
    }

    /** `s.add(Post(...))` followed by a flush: the row gets a fresh id and
        the database time `now` as its creation time. */
    method Add(d: Draft, now: Timestamp) returns (id: int)
      requires !closed && Valid()
      modifies this
      ensures !closed && Valid()
      ensures id !in old(pending)
      ensures pending == old(pending)[id := NewPost(id, d, now)]
    {
      id := NextRowId(pending.Keys);
      pending := pending[id := NewPost(id, d, now)];
    }

    /** `s.delete(p)` for a loaded post. */
    method Delete(id: int)
      requires !closed && Valid() && id in pending
      modifies this
      ensures !closed && Valid()
      ensures pending == old(pending) - {id}
    {
      pending := pending - {id};
    }

    /** `p.<field> = v` on a loaded post. */
    method Assign(id: int, f: Field, v: string)
      requires !closed && Valid() && id in pending
      modifies this
      ensures !closed && Valid()
      ensures pending == old(pending)[id := WithField(old(pending)[id], f, v)]
    {
      pending := pending[id := WithField(pending[id], f, v)];
    }

    /** `select(Post).order_by(Post.id.desc())`. */
    method ListByIdDesc() returns (posts: seq<Post>)
      requires !closed && Valid()
      ensures posts == Listing(pending)
    {
      var rows := pending;
      var ks := SortKeysDesc(rows.Keys);
      posts := seq(|ks|, i requires 0 <= i < |ks| => rows[ks[i]]);
    }

    /** `session.commit()`: the pending table becomes the database's, unless
        the engine fails, in which case the database is untouched. */
    method Commit(fails: bool) returns (ok: bool)
      requires !closed && Valid() && db.Valid()
      modifies db
      ensures db.Valid()
      ensures ok == !fails
      ensures db.rows == if ok then pending else old(db.rows)
    {
      ok := !fails;
      if ok {
        db.rows := pending;
      }
    }

    /** `session.rollback()`: uncommitted changes are discarded. */
    method Rollback()
      requires !closed && db.Valid()
      modifies this
      ensures !closed && Valid()
      ensures pending == db.rows
    {
      pending := db.rows;
    }

    /** `session.close()`. */
    method Close()
      modifies this
      ensures closed
      ensures pending == old(pending)
    {
      closed := true;
    }
  }

  /** How the body of a `with get_session()` block was left. */
  datatype Exit = Normal | Raised

  /** Leaving the `get_session()` scope (app.py:38-45): after a normal exit
      the session commits; after an exception, or when the commit itself
      fails, it rolls back and the exception propagates; the session is
      closed on every path. `commitFails` is the engine's verdict on the
      commit. The result says whether an exception leaves the scope. */
  method FinishScope(s: Session, exit: Exit, commitFails: bool) returns (raised: bool)
    requires !s.closed && s.Valid() && s.db.Valid()
    modifies s, s.db
    ensures s.closed && s.db.Valid()
    ensures raised == (exit == Raised || commitFails)
    ensures s.db.rows == if raised then old(s.db.rows) else old(s.pending)
  {
    var failed := false;
    if exit == Normal {
      var ok := s.Commit(commitFails);
      failed := !ok;
    }
    if exit == Raised || failed {
      s.Rollback();
    }
    s.Close();
    raised := exit == Raised || failed;
  }

  /** The two sample posts inserted on first run. */
  const SeedDrafts: seq<Draft> := [
    Draft("Hello SQLAlchemy", "Alice",
          "This is your first DB-backed post.\n" + "It persists in SQLite."),
    Draft("Edit & Delete", "Bob",
          "You can edit or delete this post " + "from the UI below.")
  ]

  /** The sample posts are tidy. */
  lemma SeedDraftTidy(d: Draft)
    requires d in SeedDrafts
    ensures Tidy(d.title) && Tidy(d.author) && Tidy(d.content)
  {
  }

  /** Seeding at start-up: on an empty table exactly the two sample posts are
      inserted, with distinct fresh ids; any other table is left as it is.
      Afterwards the table is not empty, so seeding again changes nothing. */
  method Seed(db: Database, now: Timestamp) returns (ghost first: int, ghost second: int)
    requires db.Valid()
    modifies db
    ensures db.Valid()
    ensures |old(db.rows)| == 0 ==>
      && first != second
      && db.rows == map[first := NewPost(first, SeedDrafts[0], now),
                        second := NewPost(second, SeedDrafts[1], now)]
    ensures |old(db.rows)| != 0 ==> db.rows == old(db.rows)
    ensures |db.rows| != 0
    ensures old(Clean(db.rows)) ==> Clean(db.rows)
  {
    first, second := 0, 0;
    var s := new Session(db);
    var n := s.Count();
    if n == 0 {
      var a := s.Add(SeedDrafts[0], now);
      var b := s.Add(SeedDrafts[1], now);
      first, second := a, b;
      assert s.pending == map[a := NewPost(a, SeedDrafts[0], now), b := NewPost(b, SeedDrafts[1], now)];
      SeedDraftTidy(SeedDrafts[0]);
      SeedDraftTidy(SeedDrafts[1]);
    }
    var _ := FinishScope(s, Normal, false);
  }
}
