/** The queries over the two tables: folder covers, cover tokens and feed links
    (src/scan.rs:551-592, src/routes.rs:98-168 and 409-457). */
module Queries {
  import opened Wrappers
  import opened Text
  import opened Catalog
  import opened Listing

  // ---------------------------------------------------------------------
  // The recursive descendant query
  // ---------------------------------------------------------------------

  function ChildFolders(t: Tables, id: int): set<Path> {
    set p | p in t.folders && t.folders[p].parent == Some(id)
  }

  function BooksIn(t: Tables, id: int): set<Path> {
    set p | p in t.books && t.books[p].folder == id
  }

  /** `p` is `a` or is reached from it by parent links. */
  predicate Descends(t: Tables, a: Path, p: Path)
    decreases |p|
  {
    p in t.folders &&
    (p == a || (t.folders[p].parent.Some? && p != [] && Descends(t, a, Parent(p))))
  }

  lemma {:induction false} DescendantIsBelow(t: Tables, a: Path, p: Path)
    requires Descends(t, a, p)
    ensures a <= p
    decreases |p|
  {
    if p != a {
      DescendantIsBelow(t, a, Parent(p));
    }
  }

  /** Child rows are the rows whose directory is the folder, and belong to it alone. */
  lemma ChildFoldersAreBelow(t: Tables, a: Path)
    requires Wellformed(t) && a in t.folders
    ensures forall p :: p in ChildFolders(t, t.folders[a].id) <==>
              p in t.folders && t.folders[p].parent.Some? && p != [] && Parent(p) == a
  {
    forall p | p in t.folders
      ensures p in ChildFolders(t, t.folders[a].id) <==>
              t.folders[p].parent.Some? && p != [] && Parent(p) == a
    {
      assert FolderLink(t, p);
    }
  }

  /** A path met by the query: reached from `a`, and after its parent. */
  ghost predicate Met(t: Tables, a: Path, sub: seq<Path>, p: Path) {
    Descends(t, a, p) && (p == a || Parent(p) in sub)
  }

  ghost predicate ChildrenMet(t: Tables, sub: seq<Path>, pending: multiset<Path>, p: Path)
    requires p in t.folders
  {
    forall q :: q in ChildFolders(t, t.folders[p].id) ==> q in sub || q in pending
  }

  /** What the queue and the result of the recursive query look like at every turn. */
  ghost predicate QueryInvariant(t: Tables, a: Path, sub: seq<Path>, pending: multiset<Path>) {
    && Distinct(sub)
    && (forall p :: p in pending ==> pending[p] == 1 && p !in sub && Met(t, a, sub, p))
    && (forall p :: p in sub ==> Met(t, a, sub, p) && ChildrenMet(t, sub, pending, p))
    && (a in sub || a in pending)
  }

  /** The children of a queued folder have not been met yet. */
  lemma ChildrenAreNew(t: Tables, a: Path, sub: seq<Path>, pending: multiset<Path>, p: Path, q: Path)
    requires Wellformed(t) && a in t.folders && QueryInvariant(t, a, sub, pending) && p in pending
    requires q in ChildFolders(t, t.folders[p].id)
    ensures q !in sub && q !in pending && q != p && Descends(t, a, q) && q != [] && Parent(q) == p
  {
    ChildFoldersAreBelow(t, p);
    DescendantIsBelow(t, a, p);
    assert Parent(q) == p;
    assert q in sub ==> Met(t, a, sub, q);
  }

  lemma QueryTurn(t: Tables, a: Path, sub: seq<Path>, pending: multiset<Path>, p: Path)
    requires Wellformed(t) && a in t.folders && QueryInvariant(t, a, sub, pending) && p in pending
    ensures QueryInvariant(t, a, sub + [p], pending - multiset{p} + multiset(ChildFolders(t, t.folders[p].id)))
  {
    var kids := ChildFolders(t, t.folders[p].id);
    forall q | q in kids
      ensures q !in sub && q !in pending && q != p && Descends(t, a, q) && q != [] && Parent(q) == p
    {
      ChildrenAreNew(t, a, sub, pending, p, q);
    }
    QueryTurnWith(t, a, sub, pending, p, kids);
  }

  lemma QueryTurnWith(t: Tables, a: Path, sub: seq<Path>, pending: multiset<Path>, p: Path, kids: set<Path>)
    requires QueryInvariant(t, a, sub, pending) && p in pending && kids == ChildFolders(t, t.folders[p].id)
    requires forall q :: q in kids ==>
               q !in sub && q !in pending && q != p && Descends(t, a, q) && q != [] && Parent(q) == p
    ensures QueryInvariant(t, a, sub + [p], pending - multiset{p} + multiset(kids))
  {
    var sub', pending' := sub + [p], pending - multiset{p} + multiset(kids);
    forall q
      ensures q in pending' <==> (q in pending && q != p) || q in kids
      ensures q in pending' ==> pending'[q] == 1
      ensures q in sub' <==> q in sub || q == p
    {
    }
    forall q | q in sub'
      ensures Met(t, a, sub', q) && ChildrenMet(t, sub', pending', q)
    {
      if q in sub {
        assert Met(t, a, sub, q) && ChildrenMet(t, sub, pending, q);
      } else {
        assert q == p && Met(t, a, sub, p);
      }
    }
    forall q | q in pending'
      ensures q !in sub' && Met(t, a, sub', q)
    {
      assert q in pending ==> Met(t, a, sub, q);
    }
  }

  lemma {:induction false} QueryComplete(t: Tables, a: Path, sub: seq<Path>, p: Path)
    requires Wellformed(t) && a in t.folders && QueryInvariant(t, a, sub, multiset{})
    requires Descends(t, a, p)
    ensures p in sub
    decreases |p|
  {
    if p != a {
      QueryComplete(t, a, sub, Parent(p));
      assert FolderLink(t, p);
      assert p in ChildFolders(t, t.folders[Parent(p)].id);
    }
  }

  lemma QueryShrinks(t: Tables, a: Path, sub: seq<Path>, pending: multiset<Path>, p: Path)
    requires QueryInvariant(t, a, sub, pending) && p in pending
    ensures t.folders.Keys - (set q | q in sub + [p]) < t.folders.Keys - (set q | q in sub)
  {
    assert Met(t, a, sub, p);
    assert p in t.folders.Keys - (set q | q in sub);
    assert (set q | q in sub + [p]) == (set q | q in sub) + {p};
  }

  /** The recursive query with its `UNION ALL` queue: on any state the scanner can
      leave, it stops, and returns exactly the descendants, each once. */
  method DescendantFolders(t: Tables, a: Path) returns (sub: seq<Path>)
    requires Wellformed(t) && a in t.folders
    ensures Distinct(sub)
    ensures forall p :: p in sub <==> Descends(t, a, p)
  {
    sub := [];
    var pending := multiset{a};
    while pending != multiset{}
      invariant QueryInvariant(t, a, sub, pending)
      decreases t.folders.Keys - set p | p in sub
    {
      var p :| p in pending;
      QueryTurn(t, a, sub, pending, p);
      QueryShrinks(t, a, sub, pending, p);
      pending := pending - multiset{p} + multiset(ChildFolders(t, t.folders[p].id));
      sub := sub + [p];
    }
    forall p
      ensures p in sub <==> Descends(t, a, p)
    {
      if Descends(t, a, p) {
        QueryComplete(t, a, sub, p);
      }
    }
  }

  // ---------------------------------------------------------------------
  // ORDER BY sort_key LIMIT 1
  // ---------------------------------------------------------------------

  function FolderRanks(t: Tables): map<Path, Rank> {
    map p | p in t.folders :: Rank(t.folders[p].sortKey, t.folders[p].id)
  }

  function BookRanks(t: Tables): map<Path, Rank> {
    map p | p in t.books :: Rank(t.books[p].sortKey, t.books[p].id)
  }

  lemma RanksAreDistinct(t: Tables)
    requires Wellformed(t)
    ensures DistinctIds(FolderRanks(t)) && DistinctIds(BookRanks(t))
  {
  }

  /** Key order, ties by row id. */
  predicate FolderBefore(t: Tables, p: Path, q: Path)
    requires p in t.folders && q in t.folders
  {
    var f, g := t.folders[p], t.folders[q];
    Lex(f.sortKey, g.sortKey) == Less || (Lex(f.sortKey, g.sortKey) == Equal && f.id <= g.id)
  }

  predicate BookBefore(t: Tables, p: Path, q: Path)
    requires p in t.books && q in t.books
  {
    var b, d := t.books[p], t.books[q];
    Lex(b.sortKey, d.sortKey) == Less || (Lex(b.sortKey, d.sortKey) == Equal && b.id <= d.id)
  }

  lemma RanksByKey(t: Tables)
    ensures forall p, q :: p in t.folders && q in t.folders ==>
              (Before(FolderRanks(t)[p], FolderRanks(t)[q]) <==> FolderBefore(t, p, q))
    ensures forall p, q :: p in t.books && q in t.books ==>
              (Before(BookRanks(t)[p], BookRanks(t)[q]) <==> BookBefore(t, p, q))
  {
  }

  predicate IsFirst(t: Tables, from: set<Path>, p: Path)
    requires from <= t.books.Keys
  {
    p in from && forall q :: q in from ==> BookBefore(t, p, q)
  }

  lemma BookBeforeTransitive(t: Tables, p: Path, q: Path, r: Path)
    requires p in t.books && q in t.books && r in t.books
    requires BookBefore(t, p, q) && BookBefore(t, q, r)
    ensures BookBefore(t, p, r)
  {
    LexTransitive(t.books[p].sortKey, t.books[q].sortKey, t.books[r].sortKey);
  }

  lemma BookBeforeTotal(t: Tables, p: Path, q: Path)
    requires p in t.books && q in t.books
    ensures BookBefore(t, p, q) || BookBefore(t, q, p)
    ensures BookIds(t) && BookBefore(t, p, q) && BookBefore(t, q, p) ==> p == q
  {
    LexFlips(t.books[p].sortKey, t.books[q].sortKey);
  }

  lemma FirstIsUnique(t: Tables, from: set<Path>, p: Path, q: Path)
    requires BookIds(t) && from <= t.books.Keys && IsFirst(t, from, p) && IsFirst(t, from, q)
    ensures p == q
  {
    BookBeforeTotal(t, p, q);
  }

  /** A single pass over the candidate rows. */
  method FirstBook(t: Tables, from: set<Path>) returns (r: Option<Path>)
    requires from <= t.books.Keys
    ensures r.None? <==> from == {}
    ensures r.Some? ==> IsFirst(t, from, r.value)
  {
    r := None;
    var left := from;
    while left != {}
      invariant left <= from
      invariant r.None? <==> left == from
      invariant r.Some? ==> IsFirst(t, from - left, r.value)
    {
      var p :| p in left;
      ghost var done := from - left;
      left := left - {p};
      assert from - left == done + {p};
      BookBeforeTotal(t, p, p);
      if r.None? {
        r := Some(p);
      } else {
        BookBeforeTotal(t, r.value, p);
        if !BookBefore(t, r.value, p) {
          forall q | q in done
            ensures BookBefore(t, p, q)
          {
            BookBeforeTransitive(t, p, r.value, q);
          }
          r := Some(p);
        }
      }
    }
    assert from - left == from;
  }

  // ---------------------------------------------------------------------
  // Cover tokens and covers
  // ---------------------------------------------------------------------

  predicate InSubtree(t: Tables, a: Path, b: Path)
    requires b in t.books
  {
    b != [] && Descends(t, a, Parent(b))
  }

  /** The books of the recursive query's join. */
  function SubtreeBooks(t: Tables, a: Path): set<Path> {
    set b | b in t.books && InSubtree(t, a, b)
  }

  /** The books a folder's cover is chosen among: its own if it has any. */
  function CoverCandidates(t: Tables, a: Path): set<Path>
    requires a in t.folders
  {
    var own := BooksIn(t, t.folders[a].id);
    if own != {} then own else SubtreeBooks(t, a)
  }

  predicate IsCoverHash(t: Tables, a: Path, hash: Option<string>)
    requires a in t.folders
  {
    var from := CoverCandidates(t, a);
    if hash.None? then from == {}
    else exists b :: b in from && IsFirst(t, from, b) && t.books[b].hash == hash.value
  }

  /** The join of the recursive query with the book table. */
  lemma JoinIsSubtree(t: Tables, a: Path, sub: seq<Path>)
    requires Wellformed(t) && a in t.folders
    requires forall p :: p in sub <==> Descends(t, a, p)
    ensures (set b, p | p in sub && p in t.folders && b in BooksIn(t, t.folders[p].id) :: b) == SubtreeBooks(t, a)
  {
    var joined := set b, p | p in sub && p in t.folders && b in BooksIn(t, t.folders[p].id) :: b;
    forall b
      ensures b in joined <==> b in SubtreeBooks(t, a)
    {
      if b in t.books {
        assert BookLink(t, b);
        if b in SubtreeBooks(t, a) {
          assert Parent(b) in sub && b in BooksIn(t, t.folders[Parent(b)].id);
        }
      }
    }
  }

  /** The cover token of one folder (`cover_version_for`). */
  method CoverVersionFor(t: Tables, coverMtime: Path -> Option<nat>, a: Path) returns (v: Option<string>)
    requires Wellformed(t) && a in t.folders
    ensures var cover := t.folders[a].cover;
            if cover.Some? && coverMtime(cover.value).Some?
            then v == Some("p" + Decimal(coverMtime(cover.value).value))
            else IsCoverHash(t, a, v)
  {
    var cover := t.folders[a].cover;
    if cover.Some? {
      var mtime := coverMtime(cover.value);
      if mtime.Some? {
        return Some("p" + Decimal(mtime.value));
      }
    }
    var direct := FirstBook(t, BooksIn(t, t.folders[a].id));
    if direct.Some? {
      return Some(t.books[direct.value].hash);
    }
    var sub := DescendantFolders(t, a);
    JoinIsSubtree(t, a, sub);
    var descendant := FirstBook(t, set b, p | p in sub && p in t.folders && b in BooksIn(t, t.folders[p].id) :: b);
    if descendant.Some? {
      return Some(t.books[descendant.value].hash);
    }
    return None;
  }

  datatype Cover = CoverFile(path: Path) | Thumbnail(hash: string) | NotFound

  predicate FolderOfSlug(t: Tables, slug: string, a: Path) {
    a in t.folders && t.folders[a].slug == slug
  }

  /** The answer to a cover request for a slug. */
  ghost predicate IsCoverServed(t: Tables, servable: Path -> bool, slug: string, r: Cover) {
    ((forall a :: !FolderOfSlug(t, slug, a)) ==> r == NotFound) &&
    (forall a :: FolderOfSlug(t, slug, a) ==>
       var cover := t.folders[a].cover;
       if cover.Some? && servable(cover.value) then r == CoverFile(cover.value)
       else !r.CoverFile? && IsCoverHash(t, a, if r.Thumbnail? then Some(r.hash) else None))
  }

  lemma ServedBySlug(t: Tables, servable: Path -> bool, slug: string, a: Path, r: Cover)
    requires SlugsUnique(t) && FolderOfSlug(t, slug, a)
    requires var cover := t.folders[a].cover;
             if cover.Some? && servable(cover.value) then r == CoverFile(cover.value)
             else !r.CoverFile? && IsCoverHash(t, a, if r.Thumbnail? then Some(r.hash) else None)
    ensures IsCoverServed(t, servable, slug, r)
  {
  }

  lemma NoSuchSlug(t: Tables, slug: string, found: set<Path>)
    requires found == (set p | p in t.folders && t.folders[p].slug == slug) && found == {}
    ensures forall a :: !FolderOfSlug(t, slug, a)
  {
    forall a
      ensures !FolderOfSlug(t, slug, a)
    {
      assert a !in found;
    }
  }

  /** The handler's fallback: a book of the folder itself, else one below it. */
  method ThumbnailCover(t: Tables, a: Path) returns (r: Cover)
    requires Wellformed(t) && a in t.folders
    ensures !r.CoverFile? && IsCoverHash(t, a, if r.Thumbnail? then Some(r.hash) else None)
  {
    var direct := FirstBook(t, BooksIn(t, t.folders[a].id));
    if direct.Some? {
      return Thumbnail(t.books[direct.value].hash);
    }
    var sub := DescendantFolders(t, a);
    JoinIsSubtree(t, a, sub);
    var below := FirstBook(t, set b, p | p in sub && p in t.folders && b in BooksIn(t, t.folders[p].id) :: b);
    return if below.Some? then Thumbnail(t.books[below.value].hash) else NotFound;
  }

  /** The cover request handler; `servable` says which cover paths resolve inside the library. */
  method FolderCover(t: Tables, servable: Path -> bool, slug: string) returns (r: Cover)
    requires Wellformed(t)
    ensures IsCoverServed(t, servable, slug, r)
  {
    var found := set p | p in t.folders && t.folders[p].slug == slug;
    if found == {} {
      NoSuchSlug(t, slug, found);
      return NotFound;
    }
    var a :| a in found;
    var folder := t.folders[a];
    if folder.cover.Some? && servable(folder.cover.value) {
      r := CoverFile(folder.cover.value);
    } else {
      r := ThumbnailCover(t, a);
    }
    ServedBySlug(t, servable, slug, a, r);
  }

  lemma CoverHashIsUnique(t: Tables, a: Path, h: Option<string>, h': Option<string>)
    requires Wellformed(t) && a in t.folders && IsCoverHash(t, a, h) && IsCoverHash(t, a, h')
    ensures h == h'
  {
    var from := CoverCandidates(t, a);
    if h.Some? && h'.Some? {
      var b :| b in from && IsFirst(t, from, b) && t.books[b].hash == h.value;
      var b' :| b' in from && IsFirst(t, from, b') && t.books[b'].hash == h'.value;
      FirstIsUnique(t, from, b, b');
    }
  }
}
