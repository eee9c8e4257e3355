/** The listing order `ORDER BY id DESC`: its specification as a ghost
    function, and the loop the storage engine model runs to produce it. */
module Ordering {
  import opened Posts

  predicate StrictlyDescending(s: seq<int>) {
    forall i, j :: 0 <= i < j < |s| ==> s[i] > s[j]
  }

  /** A non-empty set has an element. */
  lemma NonEmptyHasElement(s: set<int>)
    requires s != {}
    ensures exists x :: x in s
  {
    assert (forall x :: x !in s) ==> s == {};
  }

  /** The largest key of a non-empty key set. */
  ghost function MaxOf(ks: set<int>): (m: int)
    requires ks != {}
    ensures m in ks && forall k :: k in ks ==> k <= m
  {
    NonEmptyHasElement(ks);
    var x :| x in ks;
    var rest := ks - {x};
    assert forall k :: k in ks ==> k == x || k in rest;
    if rest == {} then x
    else
      var r := MaxOf(rest);
      if x < r then r else x
  }

  /** The keys of `ks`, largest first, each once. */
  ghost function KeysDesc(ks: set<int>): (r: seq<int>)
    ensures StrictlyDescending(r)
    ensures forall k :: k in r <==> k in ks
    ensures |r| == |ks|
    decreases ks
  {
    if ks == {} then []
    else
      var m := MaxOf(ks);
      var rest := KeysDesc(ks - {m});
      assert forall k :: k in ks <==> k == m || k in ks - {m};
      [m] + rest
  }

  /** The rows of the table, in descending id order. */
  ghost function Listing(rows: Table): seq<Post> {
    var ks := KeysDesc(rows.Keys);
    seq(|ks|, i requires 0 <= i < |ks| => rows[ks[i]])
  }

  /** The head of a strictly descending sequence is its largest element,
      and the tail holds every other element. */
  lemma HeadAndTail(a: seq<int>)
    requires StrictlyDescending(a) && a != []
    ensures forall k :: k in a ==> k <= a[0]
    ensures forall k :: k in a[1..] <==> k in a && k != a[0]
  {
    forall k | k in a ensures k <= a[0] {
      var i :| 0 <= i < |a| && a[i] == k;
    }
    forall k ensures k in a[1..] <==> k in a && k != a[0] {
      if k in a && k != a[0] {
        var i :| 0 <= i < |a| && a[i] == k;
        assert a[1..][i - 1] == k;
      }
    }
  }

  /** Two strictly descending sequences with the same elements are equal,
      so the descending order of a key set is unique. */
  lemma {:induction false} DescendingUnique(a: seq<int>, b: seq<int>)
    requires StrictlyDescending(a) && StrictlyDescending(b)
    requires forall k :: k in a <==> k in b
    ensures a == b
  {
    assert a != [] ==> a[0] in a && a[0] in b;
    assert b != [] ==> b[0] in b && b[0] in a;
    if a != [] && b != [] {
      HeadAndTail(a);
      HeadAndTail(b);
      assert a[0] in b && b[0] in a;
      DescendingUnique(a[1..], b[1..]);
      assert a == [a[0]] + a[1..] && b == [b[0]] + b[1..];
    }
  }

  /** `s` with `x` inserted at its place in descending order. */
  function InsertDesc(s: seq<int>, x: int): (r: seq<int>)
    requires StrictlyDescending(s) && x !in s
    ensures StrictlyDescending(r)
    ensures forall y :: y in r <==> y in s || y == x
  {
    if s == [] || x > s[0] then [x] + s
    else
      var rest := InsertDesc(s[1..], x);
      assert forall y :: y in s <==> y == s[0] || y in s[1..];
      assert forall j :: 1 <= j < |s| ==> s[0] > s[j];
      assert forall y :: y in rest ==> y < s[0];
      assert forall j :: 0 <= j < |rest| ==> rest[j] in rest;
      [s[0]] + rest
  }

  /** The engine's sort of a key set into descending order. */
  method SortKeysDesc(ks: set<int>) returns (r: seq<int>)
    ensures r == KeysDesc(ks)
  {
    r := [];
    var rest := ks;
    while rest != {}
      invariant rest <= ks
      invariant StrictlyDescending(r)
      invariant forall k :: k in r <==> k in ks && k !in rest
      decreases rest
    {
      NonEmptyHasElement(rest);
      var k :| k in rest;
      r := InsertDesc(r, k);
      rest := rest - {k};
    }
    DescendingUnique(r, KeysDesc(ks));
  }

  /** The listing holds exactly the table's posts, each once, with strictly
      descending ids. */
  lemma ListingExact(rows: Table)
    requires Keyed(rows)
    ensures |Listing(rows)| == |rows|
    ensures forall i, j :: 0 <= i < j < |Listing(rows)| ==> Listing(rows)[i].id > Listing(rows)[j].id
    ensures forall p :: p in Listing(rows) <==> p in rows.Values
  {
    var ks := KeysDesc(rows.Keys);
    var r := Listing(rows);
    assert forall i :: 0 <= i < |r| ==> r[i] == rows[ks[i]] && r[i].id == ks[i];
    forall p ensures p in r <==> p in rows.Values {
      if p in rows.Values {
        var k :| k in rows && rows[k] == p;
        var i :| 0 <= i < |ks| && ks[i] == k;
        assert r[i] == p;
      }
    }
  }
}
