/** What a client can reach after a scan: one root, `subsection` and `up` links that
    invert each other, and covers that agree with their tokens
    (src/routes.rs:98-168 and 409-457, src/scan.rs:551-592). */
module Browse {
  import opened Wrappers
  import opened Text
  import opened Catalog
  import opened Listing
  import opened Marking
  import opened Sweeping
  import opened Queries
  import opened Scanner
  import opened Incremental

  /** The root is the one folder without a parent. */
  ghost predicate Rooted(t: Tables, root: Path) {
    root in t.folders && forall p :: p in t.folders ==> (t.folders[p].parent.None? <==> p == root)
  }

  /** Exactly one parentless folder is left by a scan of tables with no same-second rows. */
  lemma ScanLeavesOneRoot(c: Config, t: Tables, lib: Library)
    requires Wellformed(t) && DistinctNames(lib.kids) && StartWalk(c, t, lib.info).Some?
    requires AllOlder(t, c.started)
    ensures Rooted(Sweep(WalkLibrary(c, t, lib).t, c.started), c.root)
  {
    var w0, w := StartWalk(c, t, lib.info).value, WalkLibrary(c, t, lib);
    WalkLibraryWalked(c, t, lib);
    MarkAndSweepIsExact(c, t, lib);
    var u := Sweep(w.t, c.started);
    forall p | KeptFolder(c, w.log, p)
      ensures p in u.folders && (u.folders[p].parent.None? <==> p == c.root)
    {
      KeptRows(c, w0.t, w, p);
      SweepSparesStamped(c, w0.t, w, p);
    }
    forall p | p in u.folders
      ensures KeptFolder(c, w.log, p)
    {
      assert ExactAt(c, w.log, u, p);
    }
  }

  lemma RootedTokens(t: Tables, t': Tables, root: Path)
    requires SameButTokens(t, t') && Rooted(t, root)
    ensures Rooted(t', root)
  {
    forall p | p in t'.folders
      ensures t'.folders[p].parent.None? <==> p == root
    {
      assert SameButTokenAt(t, t', p);
    }
  }

  /** So a completed scan leaves a table from whose root everything can be browsed. */
  lemma ScanLeavesBrowsable(c: Config, t: Tables, lib: Library, t': Tables)
    requires Wellformed(t) && DistinctNames(lib.kids) && StartWalk(c, t, lib.info).Some?
    requires AllOlder(t, c.started) && ScanLeft(c, t, lib, NoTrouble, true, t')
    ensures Wellformed(t') && Rooted(t', c.root)
  {
    var walked := WalkLibrary(c, t, lib).t;
    WalkLibraryWalked(c, t, lib);
    PruneBooksKeepsTree(walked, c.started);
    PruneFoldersKeepsTree(PruneBooks(walked, c.started), c.started);
    TokensKeepTree(Sweep(walked, c.started), t');
    ScanLeavesOneRoot(c, t, lib);
    RootedTokens(Sweep(walked, c.started), t', c.root);
  }

  lemma ProperPrefix(a: Path, p: Path)
    requires a <= p && a != p
    ensures p != [] && a <= Parent(p) && |a| < |p|
  {
    assert a == p[..|a|];
    assert p[..|p|] == p;
    assert a == Parent(p)[..|a|];
  }

  /** Below a folder in path means below it by links. */
  lemma {:induction false} BelowIsDescendant(t: Tables, root: Path, a: Path, p: Path)
    requires Wellformed(t) && Rooted(t, root) && a in t.folders && p in t.folders
    ensures a <= p <==> Descends(t, a, p)
    decreases |p|
  {
    if Descends(t, a, p) {
      DescendantIsBelow(t, a, p);
    } else if a <= p {
      ProperPrefix(a, p);
      RootIsShortest(t, root, a);
      assert FolderLink(t, p);
      assert p != root;
      BelowIsDescendant(t, root, a, Parent(p));
    }
  }

  lemma {:induction false} RootIsShortest(t: Tables, root: Path, p: Path)
    requires Wellformed(t) && Rooted(t, root) && p in t.folders
    ensures root <= p
    decreases |p|
  {
    if p != root {
      assert FolderLink(t, p);
      RootIsShortest(t, root, Parent(p));
    }
  }

  // ---------------------------------------------------------------------
  // Links between feeds
  // ---------------------------------------------------------------------

  /** The feed of `slug` has a subsection entry for `sub`. */
  ghost predicate LinksDown(t: Tables, slug: string, sub: string) {
    exists a, b :: FolderOfSlug(t, slug, a) && FolderOfSlug(t, sub, b) && b in ChildFolders(t, t.folders[a].id)
  }

  /** The feed of `slug` has an `up` link to `up`. */
  ghost predicate LinksUp(t: Tables, slug: string, up: string) {
    exists a, q :: FolderOfSlug(t, slug, a) && FolderOfSlug(t, up, q) && t.folders[a].parent == Some(t.folders[q].id)
  }

  ghost predicate ListsBook(t: Tables, slug: string, b: Path) {
    exists a :: FolderOfSlug(t, slug, a) && b in BooksIn(t, t.folders[a].id)
  }

  /** The feed of folder `a`: its child folders and its books, each by key. */
  ghost predicate IsFeedOf(t: Tables, a: Path, subs: seq<Path>, books: seq<Path>)
    requires a in t.folders
  {
    IsListing(FolderRanks(t), ChildFolders(t, t.folders[a].id), subs) &&
    IsListing(BookRanks(t), BooksIn(t, t.folders[a].id), books)
  }

  /** The rows behind one folder feed (`serve_folder_feed`), found by slug. */
  method FolderFeed(t: Tables, slug: string)
    returns (found: bool, subs: seq<Path>, books: seq<Path>, up: Option<string>)
    requires Wellformed(t)
    ensures found <==> exists a :: FolderOfSlug(t, slug, a)
    ensures forall a :: FolderOfSlug(t, slug, a) ==> IsFeedOf(t, a, subs, books)
    ensures forall s :: up == Some(s) <==> LinksUp(t, slug, s)
  {
    subs, books, up := [], [], None;
    var matching := set p | p in t.folders && t.folders[p].slug == slug;
    found := matching != {};
    if !found {
      NoSuchSlug(t, slug, matching);
      return;
    }
    var a :| a in matching;
    assert FolderOfSlug(t, slug, a);
    subs := OrderBy(FolderRanks(t), ChildFolders(t, t.folders[a].id));
    books := OrderBy(BookRanks(t), BooksIn(t, t.folders[a].id));
    up := UpLink(t, a);
  }

  /** The slug of the parent row, if there is one. */
  method UpLink(t: Tables, a: Path) returns (up: Option<string>)
    requires Wellformed(t) && a in t.folders
    ensures forall s :: up == Some(s) <==> LinksUp(t, t.folders[a].slug, s)
  {
    up := None;
    var parent := t.folders[a].parent;
    assert FolderOfSlug(t, t.folders[a].slug, a);
    if parent.Some? {
      var rows := set q | q in t.folders && t.folders[q].id == parent.value;
      assert FolderLink(t, a);
      assert Parent(a) in rows;
      var q :| q in rows;
      up := Some(t.folders[q].slug);
      assert FolderOfSlug(t, up.value, q);
    }
  }

  /** The entries of a feed are its subsection links and its books. */
  lemma FeedLinks(t: Tables, a: Path, subs: seq<Path>, books: seq<Path>)
    requires Wellformed(t) && a in t.folders && IsFeedOf(t, a, subs, books)
    ensures forall s :: LinksDown(t, t.folders[a].slug, s) <==>
              exists b :: b in subs && b in t.folders && t.folders[b].slug == s
    ensures forall b :: ListsBook(t, t.folders[a].slug, b) <==> b in books
  {
    var slug := t.folders[a].slug;
    assert FolderOfSlug(t, slug, a);
    forall s
      ensures LinksDown(t, slug, s) <==> exists b :: b in subs && b in t.folders && t.folders[b].slug == s
    {
      if b :| b in subs && b in t.folders && t.folders[b].slug == s {
        assert FolderOfSlug(t, s, b);
      }
      if LinksDown(t, slug, s) {
        var x, b :| FolderOfSlug(t, slug, x) && FolderOfSlug(t, s, b) && b in ChildFolders(t, t.folders[x].id);
        assert x == a && b in subs;
      }
    }
  }

  /** The rows of a feed: each child folder and each book once, by key and then by row id. */
  lemma FeedRows(t: Tables, a: Path, subs: seq<Path>, books: seq<Path>)
    requires a in t.folders && IsFeedOf(t, a, subs, books)
    ensures Distinct(subs) && forall p :: p in subs <==> p in t.folders && t.folders[p].parent == Some(t.folders[a].id)
    ensures Distinct(books) && forall b :: b in books <==> b in t.books && t.books[b].folder == t.folders[a].id
    ensures forall i, j :: 0 <= i < j < |subs| ==> FolderBefore(t, subs[i], subs[j])
    ensures forall i, j :: 0 <= i < j < |books| ==> BookBefore(t, books[i], books[j])
  {
    RanksByKey(t);
    assert forall i :: 0 <= i < |subs| ==> subs[i] in subs;
    assert forall i :: 0 <= i < |books| ==> books[i] in books;
  }

  /** The order of a feed is determined. */
  lemma FeedIsUnique(t: Tables, a: Path, subs: seq<Path>, books: seq<Path>, subs': seq<Path>, books': seq<Path>)
    requires Wellformed(t) && a in t.folders && IsFeedOf(t, a, subs, books) && IsFeedOf(t, a, subs', books')
    ensures subs == subs' && books == books'
  {
    RanksAreDistinct(t);
    ListingUnique(FolderRanks(t), ChildFolders(t, t.folders[a].id), subs, subs');
    ListingUnique(BookRanks(t), BooksIn(t, t.folders[a].id), books, books');
  }

  /** `up` undoes every subsection link, and leads only where one leads back. */
  lemma UpInvertsSubsection(t: Tables, slug: string, sub: string)
    requires Wellformed(t)
    ensures LinksDown(t, slug, sub) <==> LinksUp(t, sub, slug)
    ensures forall s :: LinksUp(t, sub, slug) && LinksUp(t, sub, s) ==> s == slug
  {
    if LinksDown(t, slug, sub) {
      var a, b :| FolderOfSlug(t, slug, a) && FolderOfSlug(t, sub, b) && b in ChildFolders(t, t.folders[a].id);
      assert t.folders[b].parent == Some(t.folders[a].id);
    }
    if LinksUp(t, sub, slug) {
      var b, a :| FolderOfSlug(t, sub, b) && FolderOfSlug(t, slug, a) && t.folders[b].parent == Some(t.folders[a].id);
      assert b in ChildFolders(t, t.folders[a].id);
    }
  }

  /** The slugs from a folder up to the root. */
  ghost function UpTrail(t: Tables, root: Path, p: Path): (trail: seq<string>)
    requires Wellformed(t) && Rooted(t, root) && p in t.folders
    ensures trail != []
    decreases |p|
  {
    if p == root then [t.folders[root].slug]
    else
      assert FolderLink(t, p);
      [t.folders[p].slug] + UpTrail(t, root, Parent(p))
  }

  /** Each slug of a trail has an `up` link to the next, and that one a subsection link back. */
  ghost predicate LinkedTrail(t: Tables, trail: seq<string>) {
    forall i :: 0 <= i < |trail| - 1 ==> LinksUp(t, trail[i], trail[i + 1]) && LinksDown(t, trail[i + 1], trail[i])
  }

  lemma LongerTrail(t: Tables, slug: string, rest: seq<string>)
    requires Wellformed(t) && rest != [] && LinkedTrail(t, rest) && LinksUp(t, slug, rest[0])
    ensures LinkedTrail(t, [slug] + rest)
  {
    UpInvertsSubsection(t, rest[0], slug);
    var trail := [slug] + rest;
    forall i | 0 <= i < |trail| - 1
      ensures LinksUp(t, trail[i], trail[i + 1]) && LinksDown(t, trail[i + 1], trail[i])
    {
      if i > 0 {
        assert trail[i] == rest[i - 1] && trail[i + 1] == rest[i];
      }
    }
  }

  lemma RootHasNoUp(t: Tables, root: Path)
    requires Wellformed(t) && Rooted(t, root)
    ensures forall s :: !LinksUp(t, t.folders[root].slug, s)
  {
    assert FolderOfSlug(t, t.folders[root].slug, root);
  }

  lemma {:induction false} TrailIsLinked(t: Tables, root: Path, p: Path)
    requires Wellformed(t) && Rooted(t, root) && p in t.folders
    ensures root <= p
    ensures var trail := UpTrail(t, root, p);
            |trail| == |p| - |root| + 1 && LinkedTrail(t, trail) &&
            trail[0] == t.folders[p].slug && trail[|trail| - 1] == t.folders[root].slug
    decreases |p|
  {
    RootIsShortest(t, root, p);
    if p != root {
      assert FolderLink(t, p);
      TrailIsLinked(t, root, Parent(p));
      var rest := UpTrail(t, root, Parent(p));
      assert FolderOfSlug(t, t.folders[p].slug, p) && FolderOfSlug(t, rest[0], Parent(p));
      assert LinksUp(t, t.folders[p].slug, rest[0]);
      LongerTrail(t, t.folders[p].slug, rest);
    }
  }

  /** Following `up` reaches the root in as many steps as the folder is deep, every step
      is a subsection link backwards, and the root has no `up` link. */
  lemma UpReachesRoot(t: Tables, root: Path, p: Path)
    requires Wellformed(t) && Rooted(t, root) && p in t.folders
    ensures root <= p
    ensures var trail := UpTrail(t, root, p);
            |trail| == |p| - |root| + 1 && LinkedTrail(t, trail) &&
            trail[0] == t.folders[p].slug && trail[|trail| - 1] == t.folders[root].slug &&
            (forall s :: !LinksUp(t, t.folders[root].slug, s))
  {
    TrailIsLinked(t, root, p);
    RootHasNoUp(t, root);
  }

  /** Every catalogued book is listed by a folder that subsection links reach from the root. */
  lemma EveryBookReachable(t: Tables, root: Path, b: Path) returns (trail: seq<string>)
    requires Wellformed(t) && Rooted(t, root) && b in t.books
    ensures trail != [] && trail[|trail| - 1] == t.folders[root].slug && ListsBook(t, trail[0], b)
    ensures forall i :: 0 <= i < |trail| - 1 ==> LinksDown(t, trail[i + 1], trail[i])
  {
    assert BookLink(t, b);
    UpReachesRoot(t, root, Parent(b));
    trail := UpTrail(t, root, Parent(b));
    assert FolderOfSlug(t, trail[0], Parent(b));
  }

  // ---------------------------------------------------------------------
  // Covers
  // ---------------------------------------------------------------------

  /** After a scan the cover of a folder is chosen among the books directly in its
      directory, or, if there is none, among the books anywhere below its path. */
  lemma CandidatesByPath(t: Tables, root: Path, a: Path, b: Path)
    requires Wellformed(t) && Rooted(t, root) && a in t.folders
    ensures b in CoverCandidates(t, a) <==>
            (b in t.books && b != [] &&
             if exists x :: x in t.books && x != [] && Parent(x) == a then Parent(b) == a else a <= Parent(b))
  {
    forall x | x in t.books
      ensures x != [] && (x in BooksIn(t, t.folders[a].id) <==> Parent(x) == a)
      ensures x in SubtreeBooks(t, a) <==> a <= Parent(x)
    {
      assert BookLink(t, x);
      BelowIsDescendant(t, root, a, Parent(x));
    }
    if x :| x in t.books && x != [] && Parent(x) == a {
      assert x in BooksIn(t, t.folders[a].id);
    }
  }

  /** Where no cover file applies, the token of a refreshed folder is the hash of the
      book whose thumbnail the cover request serves, and `None` when it finds none. */
  lemma CoverTokenAgrees(t: Tables, t': Tables, coverMtime: Path -> Option<nat>, servable: Path -> bool,
                         a: Path, slug: string, r: Cover)
    requires Wellformed(t) && Refreshed(t, t', coverMtime) && FolderOfSlug(t', slug, a)
    requires t'.folders[a].cover.Some? ==>
               coverMtime(t'.folders[a].cover.value).None? && !servable(t'.folders[a].cover.value)
    requires IsCoverServed(t', servable, slug, r)
    ensures r == match t'.folders[a].coverVersion case None => NotFound case Some(h) => Thumbnail(h)
  {
    var token := t'.folders[a].coverVersion;
    TokensKeepTree(t, t');
    assert SameButTokenAt(t, t', a);
    TokensDoNotMatter(t, t', coverMtime, a, token);
    CoverHashIsUnique(t', a, token, if r.Thumbnail? then Some(r.hash) else None);
  }

  // ---------------------------------------------------------------------
  // Tokens and row ids
  // ---------------------------------------------------------------------

  /** The same tables with the book rows numbered differently. */
  ghost predicate Renumbered(t: Tables, u: Tables) {
    u.folders == t.folders && u.books.Keys == t.books.Keys && BookIds(u) &&
    forall b :: b in t.books ==> u.books[b] == t.books[b].(id := u.books[b].id)
  }

  ghost predicate LeastKey(t: Tables, from: set<Path>, b: Path)
    requires from <= t.books.Keys
  {
    b in from && forall x :: x in from ==> Lex(t.books[b].sortKey, t.books[x].sortKey) != Greater
  }

  ghost predicate NoTies(t: Tables, a: Path)
    requires a in t.folders
  {
    var from := CoverCandidates(t, a);
    forall b, x :: b in from && x in from && LeastKey(t, from, b) && LeastKey(t, from, x) ==>
      t.books[b].hash == t.books[x].hash
  }

  /** Whether candidates tie does not depend on tokens. */
  lemma TiesIgnoreTokens(t: Tables, t': Tables, a: Path)
    requires SameButTokens(t, t') && a in t.folders
    ensures NoTies(t, a) <==> NoTies(t', a)
  {
    assert SameButTokenAt(t, t', a);
    forall b | b in t.books && b != []
      ensures Descends(t, a, Parent(b)) == Descends(t', a, Parent(b))
    {
      TokensDoNotMoveFolders(t, t', a, Parent(b));
    }
    assert SubtreeBooks(t, a) == SubtreeBooks(t', a);
    assert BooksIn(t, t.folders[a].id) == BooksIn(t', t'.folders[a].id);
    var from := CoverCandidates(t, a);
    assert from == CoverCandidates(t', a);
    forall b
      ensures LeastKey(t, from, b) == LeastKey(t', from, b)
    {
    }
  }

  ghost predicate SameCandidates(t: Tables, u: Tables, a: Path)
    requires a in t.folders && a in u.folders
  {
    CoverCandidates(t, a) == CoverCandidates(u, a)
  }

  lemma {:induction false} SameFoldersDescend(t: Tables, u: Tables, a: Path, p: Path)
    requires u.folders == t.folders
    ensures Descends(t, a, p) == Descends(u, a, p)
    decreases |p|
  {
    if p != [] {
      SameFoldersDescend(t, u, a, Parent(p));
    }
  }

  lemma RenumberedCandidates(t: Tables, u: Tables, a: Path)
    requires Renumbered(t, u) && a in t.folders
    ensures SameCandidates(t, u, a)
  {
    forall b | b in t.books && b != []
      ensures Descends(t, a, Parent(b)) == Descends(u, a, Parent(b))
    {
      SameFoldersDescend(t, u, a, Parent(b));
    }
    assert SubtreeBooks(t, a) == SubtreeBooks(u, a);
    assert BooksIn(t, t.folders[a].id) == BooksIn(u, u.folders[a].id);
  }

  lemma FirstHasLeastKey(t: Tables, from: set<Path>, b: Path)
    requires from <= t.books.Keys && IsFirst(t, from, b)
    ensures LeastKey(t, from, b)
  {
    forall x | x in from
      ensures Lex(t.books[b].sortKey, t.books[x].sortKey) != Greater
    {
      assert BookBefore(t, b, x);
    }
  }

  /** Give one book the first id and move all others up. */
  ghost function NumberedFirst(t: Tables, b: Path): Tables
    requires b in t.books
  {
    t.(books := map x | x in t.books :: t.books[x].(id := if x == b then 1 else t.books[x].id + 1),
       lastBook := t.lastBook + 1)
  }

  lemma NumberedFirstRenumbers(t: Tables, b: Path)
    requires BookIds(t) && b in t.books
    ensures Renumbered(t, NumberedFirst(t, b))
  {
  }

  lemma NumberedFirstIsFirst(t: Tables, a: Path, b: Path)
    requires Wellformed(t) && a in t.folders && b in CoverCandidates(t, a)
    requires LeastKey(t, CoverCandidates(t, a), b)
    ensures Renumbered(t, NumberedFirst(t, b))
    ensures IsCoverHash(NumberedFirst(t, b), a, Some(t.books[b].hash))
  {
    var u := NumberedFirst(t, b);
    NumberedFirstRenumbers(t, b);
    RenumberedCandidates(t, u, a);
    var from := CoverCandidates(t, a);
    forall x | x in from
      ensures BookBefore(u, b, x)
    {
      assert Lex(t.books[b].sortKey, t.books[x].sortKey) != Greater;
    }
    assert IsFirst(u, from, b);
  }

  lemma RenumberedCoverKey(t: Tables, u: Tables, a: Path, h: Option<string>) returns (b: Path)
    requires Renumbered(t, u) && a in t.folders && IsCoverHash(u, a, h) && CoverCandidates(t, a) != {}
    ensures b in CoverCandidates(t, a) && LeastKey(t, CoverCandidates(t, a), b) && h == Some(t.books[b].hash)
  {
    RenumberedCandidates(t, u, a);
    var from := CoverCandidates(t, a);
    b :| b in from && IsFirst(u, from, b) && u.books[b].hash == h.value;
    FirstHasLeastKey(u, from, b);
  }

  lemma NoTiesIndependent(t: Tables, a: Path, u: Tables, v: Tables, h: Option<string>, k: Option<string>)
    requires a in t.folders && NoTies(t, a)
    requires Renumbered(t, u) && Renumbered(t, v) && IsCoverHash(u, a, h) && IsCoverHash(v, a, k)
    ensures h == k
  {
    RenumberedCandidates(t, u, a);
    RenumberedCandidates(t, v, a);
    if CoverCandidates(t, a) != {} {
      var b := RenumberedCoverKey(t, u, a, h);
      var x := RenumberedCoverKey(t, v, a, k);
    }
  }

  /** The choice of a cover breaks key ties by row id, and ids depend on the order in which
      books first appeared. A folder's cover hash is the same under every numbering of the
      rows if and only if all its candidates of least key share one hash. */
  lemma CoverIsIdIndependentIff(t: Tables, a: Path)
    requires Wellformed(t) && a in t.folders
    ensures NoTies(t, a) <==>
            forall u, v, h, k :: Renumbered(t, u) && Renumbered(t, v) && IsCoverHash(u, a, h) && IsCoverHash(v, a, k)
                                 ==> h == k
  {
    if NoTies(t, a) {
      forall u, v, h, k | Renumbered(t, u) && Renumbered(t, v) && IsCoverHash(u, a, h) && IsCoverHash(v, a, k)
        ensures h == k
      {
        NoTiesIndependent(t, a, u, v, h, k);
      }
    } else {
      var u, v, h, k := TiesDepend(t, a);
    }
  }

  lemma TiesDepend(t: Tables, a: Path) returns (u: Tables, v: Tables, h: Option<string>, k: Option<string>)
    requires Wellformed(t) && a in t.folders && !NoTies(t, a)
    ensures Renumbered(t, u) && Renumbered(t, v) && IsCoverHash(u, a, h) && IsCoverHash(v, a, k) && h != k
  {
    var from := CoverCandidates(t, a);
    var b, x :| b in from && x in from && LeastKey(t, from, b) && LeastKey(t, from, x) &&
                t.books[b].hash != t.books[x].hash;
    NumberedFirstIsFirst(t, a, b);
    NumberedFirstIsFirst(t, a, x);
    return NumberedFirst(t, b), NumberedFirst(t, x), Some(t.books[b].hash), Some(t.books[x].hash);
  }

  lemma SameIndexCandidates(root: Path, t: Tables, u: Tables, a: Path)
    requires Wellformed(t) && Wellformed(u) && Rooted(t, root) && Rooted(u, root) && SameIndex(t, u)
    requires a in t.folders && a in u.folders
    ensures CoverCandidates(t, a) == CoverCandidates(u, a)
  {
    forall b
      ensures b in CoverCandidates(t, a) <==> b in CoverCandidates(u, a)
    {
      CandidatesByPath(t, root, a, b);
      CandidatesByPath(u, root, a, b);
      forall x
        ensures x in t.books <==> x in u.books
      {
        assert SameIndexAt(t, u, x);
      }
    }
  }

  lemma SameIndexLeastKey(t: Tables, u: Tables, from: set<Path>, b: Path)
    requires SameIndex(t, u) && from <= t.books.Keys && from <= u.books.Keys && b in from
    ensures LeastKey(t, from, b) == LeastKey(u, from, b)
    ensures t.books[b].hash == u.books[b].hash
  {
    assert SameIndexAt(t, u, b);
    forall x | x in from
      ensures t.books[x].sortKey == u.books[x].sortKey
    {
      assert SameIndexAt(t, u, x);
    }
  }

  lemma SameIndexSameHash(root: Path, t: Tables, u: Tables, a: Path, h: Option<string>, k: Option<string>)
    requires Wellformed(t) && Wellformed(u) && Rooted(t, root) && Rooted(u, root) && SameIndex(t, u)
    requires a in t.folders && a in u.folders && NoTies(t, a)
    requires IsCoverHash(t, a, h) && IsCoverHash(u, a, k)
    ensures h == k
  {
    SameIndexCandidates(root, t, u, a);
    var from := CoverCandidates(t, a);
    if from != {} {
      var b :| b in from && IsFirst(t, from, b) && t.books[b].hash == h.value;
      var x :| x in from && IsFirst(u, from, x) && u.books[x].hash == k.value;
      FirstHasLeastKey(t, from, b);
      FirstHasLeastKey(u, from, x);
      SameIndexLeastKey(t, u, from, x);
    }
  }

  /** Two scans that leave the same index give a folder the same token, provided its
      candidates of least key share one hash. */
  lemma SameIndexSameToken(c: Config, t: Tables, t': Tables, u: Tables, u': Tables, a: Path)
    requires Wellformed(t) && Wellformed(u) && Rooted(t, c.root) && Rooted(u, c.root) && SameIndex(t, u)
    requires Refreshed(t, t', c.coverMtime) && Refreshed(u, u', c.coverMtime)
    requires a in t.folders && a in u.folders && NoTies(t, a)
    ensures t'.folders[a].coverVersion == u'.folders[a].coverVersion
  {
    assert SameIndexAt(t, u, a);
    var h, k := t'.folders[a].coverVersion, u'.folders[a].coverVersion;
    assert IsCoverToken(t, c.coverMtime, a, h) && IsCoverToken(u, c.coverMtime, a, k);
    if t.folders[a].cover.None? || c.coverMtime(t.folders[a].cover.value).None? {
      SameIndexSameHash(c.root, t, u, a, h, k);
    }
  }
}
