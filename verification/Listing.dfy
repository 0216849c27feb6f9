/** `ORDER BY sort_key`, with row ids as tie-break, and `LIMIT`. */
module Listing {
  import opened Text

  datatype Rank = Rank(key: string, id: int)

  predicate Before(a: Rank, b: Rank) {
    var o := Lex(a.key, b.key);
    o == Less || (o == Equal && a.id <= b.id)
  }

  lemma BeforeTotal(a: Rank, b: Rank)
    ensures Before(a, b) || Before(b, a)
    ensures Before(a, b) && Before(b, a) ==> a == b
  {
    LexFlips(a.key, b.key);
    LexEqualIsIdentity(a.key, b.key);
  }

  lemma BeforeTransitive(a: Rank, b: Rank, c: Rank)
    requires Before(a, b) && Before(b, c)
    ensures Before(a, c)
  {
    LexTransitive(a.key, b.key, c.key);
  }

  predicate Ordered<T>(rank: map<T, Rank>, s: seq<T>)
    requires forall x :: x in s ==> x in rank
  {
    forall i, j :: 0 <= i < j < |s| ==> Before(rank[s[i]], rank[s[j]])
  }

  predicate Distinct<T(==)>(s: seq<T>) {
    forall i, j :: 0 <= i < j < |s| ==> s[i] != s[j]
  }

  /** All rows of a set, each once, by key. */
  ghost predicate IsListing<T(!new)>(rank: map<T, Rank>, rows: set<T>, s: seq<T>) {
    Distinct(s) && (forall x :: x in s <==> x in rows) && (forall x :: x in s ==> x in rank) && Ordered(rank, s)
  }

  function FirstOf<T>(s: seq<T>, limit: nat): seq<T> {
    if |s| <= limit then s else s[..limit]
  }

  /** The rows that a limit lets through: all of them, or that many which no other row comes before. */
  ghost predicate IsTop<T(!new)>(rank: map<T, Rank>, rows: set<T>, limit: nat, hits: seq<T>) {
    && Distinct(hits) && (forall x :: x in hits ==> x in rows) && rows <= rank.Keys
    && (forall i, j :: 0 <= i < j < |hits| ==> Before(rank[hits[i]], rank[hits[j]]))
    && |hits| <= limit && (|hits| < limit ==> forall x :: x in rows ==> x in hits)
    && (forall h, x :: h in hits && x in rows && x !in hits ==> Before(rank[h], rank[x]))
  }

  lemma FirstOfIsTop<T(!new)>(rank: map<T, Rank>, rows: set<T>, all: seq<T>, limit: nat)
    requires IsListing(rank, rows, all)
    ensures IsTop(rank, rows, limit, FirstOf(all, limit))
  {
    var hits := FirstOf(all, limit);
    assert forall x :: x in rows ==> x in all;
    assert forall k :: 0 <= k < |hits| ==> all[k] == hits[k] && hits[k] in hits;
    forall h, x | h in hits && x in rows && x !in hits
      ensures Before(rank[h], rank[x])
    {
      var i :| 0 <= i < |hits| && hits[i] == h;
      var j :| 0 <= j < |all| && all[j] == x;
      assert all[i] == h;
    }
  }

  /** The rows up to `x` stay, `x` is put behind them. */
  lemma InsertKeepsListing<T(!new)>(rank: map<T, Rank>, rows: set<T>, s: seq<T>, x: T, k: nat)
    requires IsListing(rank, rows, s) && x in rank && x !in rows && k <= |s|
    requires forall i :: 0 <= i < k ==> Before(rank[s[i]], rank[x])
    requires forall i :: k <= i < |s| ==> Before(rank[x], rank[s[i]])
    ensures IsListing(rank, rows + {x}, s[..k] + [x] + s[k..])
  {
    var r := s[..k] + [x] + s[k..];
    assert forall i :: 0 <= i < |r| ==> r[i] == if i < k then s[i] else if i == k then x else s[i - 1];
    forall y
      ensures y in r <==> y in rows || y == x
    {
      if y in s {
        var i :| 0 <= i < |s| && s[i] == y;
        assert r[if i < k then i else i + 1] == y;
      }
      assert r[k] == x;
    }
  }

  /** Where a row goes: behind all that come before it. */
  method PlaceFor<T(!new)>(rank: map<T, Rank>, ghost rows: set<T>, s: seq<T>, x: T) returns (k: nat)
    requires IsListing(rank, rows, s) && x in rank && x !in rows
    ensures k <= |s|
    ensures forall i :: 0 <= i < k ==> Before(rank[s[i]], rank[x])
    ensures forall i :: k <= i < |s| ==> Before(rank[x], rank[s[i]])
  {
    k := |s|;
    while k > 0 && !Before(rank[s[k - 1]], rank[x])
      invariant k <= |s|
      invariant forall i :: k <= i < |s| ==> Before(rank[x], rank[s[i]])
    {
      BeforeTotal(rank[s[k - 1]], rank[x]);
      k := k - 1;
    }
    forall i | 0 <= i < k
      ensures Before(rank[s[i]], rank[x])
    {
      if i < k - 1 {
        BeforeTransitive(rank[s[i]], rank[s[k - 1]], rank[x]);
      }
    }
  }

  method OrderBy<T(!new, ==)>(rank: map<T, Rank>, rows: set<T>) returns (s: seq<T>)
    requires rows <= rank.Keys
    ensures IsListing(rank, rows, s)
  {
    s := [];
    var left := rows;
    while left != {}
      invariant left <= rows && IsListing(rank, rows - left, s)
    {
      var x :| x in left;
      var k := PlaceFor(rank, rows - left, s, x);
      InsertKeepsListing(rank, rows - left, s, x, k);
      assert rows - (left - {x}) == (rows - left) + {x};
      s, left := s[..k] + [x] + s[k..], left - {x};
    }
    assert rows - left == rows;
  }

  ghost predicate DistinctIds<T(!new)>(rank: map<T, Rank>) {
    forall x, y :: x in rank && y in rank && rank[x].id == rank[y].id ==> x == y
  }

  lemma ListsSome<T(!new)>(rank: map<T, Rank>, rows: set<T>, s: seq<T>)
    requires IsListing(rank, rows, s)
    ensures s == [] <==> rows == {}
  {
    if s != [] {
      assert s[0] in rows;
    }
  }

  /** Ids decide every tie, so there is one listing. */
  lemma {:induction false} ListingUnique<T(!new)>(rank: map<T, Rank>, rows: set<T>, s: seq<T>, t: seq<T>)
    requires IsListing(rank, rows, s) && IsListing(rank, rows, t) && DistinctIds(rank)
    ensures s == t
    decreases |s|
  {
    ListsSome(rank, rows, s);
    ListsSome(rank, rows, t);
    if rows != {} {
      assert s[0] in rows && s[0] in t && t[0] in t && t[0] in rows && t[0] in s;
      FirstIsBefore(rank, rows, s, t[0]);
      FirstIsBefore(rank, rows, t, s[0]);
      BeforeTotal(rank[s[0]], rank[t[0]]);
      TailIsListing(rank, rows, s);
      TailIsListing(rank, rows, t);
      ListingUnique(rank, rows - {s[0]}, s[1..], t[1..]);
      assert s == [s[0]] + s[1..] && t == [t[0]] + t[1..];
    }
  }

  lemma FirstIsBefore<T(!new)>(rank: map<T, Rank>, rows: set<T>, s: seq<T>, x: T)
    requires IsListing(rank, rows, s) && x in rows
    ensures s != [] && s[0] in rank && x in rank && Before(rank[s[0]], rank[x])
  {
    var i :| 0 <= i < |s| && s[i] == x;
    BeforeTotal(rank[x], rank[x]);
  }

  lemma TailIsListing<T(!new)>(rank: map<T, Rank>, rows: set<T>, s: seq<T>)
    requires IsListing(rank, rows, s) && s != []
    ensures IsListing(rank, rows - {s[0]}, s[1..])
  {
    var t := s[1..];
    assert forall i :: 0 <= i < |t| ==> t[i] == s[i + 1];
    forall x
      ensures x in t <==> x in rows && x != s[0]
    {
      if x in s {
        var i :| 0 <= i < |s| && s[i] == x;
        assert i > 0 ==> t[i - 1] == x;
      }
    }
  }
}
