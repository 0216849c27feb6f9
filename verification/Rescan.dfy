/** What a rescan gives after any history of earlier scans: exactly the visible tree unless rows
    were seen in the same second, and the cover tokens of a first scan unless books tie
    (src/scan.rs:75-225 and 531-592). */
module Rescan {
  import opened Wrappers
  import opened Text
  import opened Catalog
  import opened Walk
  import opened Marking
  import opened Sweeping
  import opened Queries
  import opened Scanner
  import opened Incremental
  import opened Mirror
  import opened History
  import opened Browse

  // ---------------------------------------------------------------------
  // Rows of the same second
  // ---------------------------------------------------------------------

  ghost predicate FaithfulRun(world: World, c: Config, visits: seq<Visit>) {
    forall v :: v in visits ==> FaithfulVisit(world, c.slug, c.started + 1, v)
  }

  /** After any run of scans on a clock that does not go back, complete or cut off anywhere and of this
      or other roots, a fault-free scan leaves exactly the visible tree if and only if every row last
      seen in the second it starts is one the tree shows. */
  lemma RescanMirrorsIff(c: Config, world: World, visits: seq<Visit>, lib: Library)
    requires Injective(world, c.slug) && c.faults == {} && FaithfulRun(world, c, visits)
    requires ClockForward(visits, c.started) && DistinctNames(lib.kids) && Faithful(world, c.root, lib.kids)
    ensures var t := AfterAll(EMPTY, visits);
            StartWalk(c, t, lib.info).Some? &&
            (Mirrors(c.root, c.libraryName, lib, Sweep(WalkLibrary(c, t, lib).t, c.started)) <==>
             forall p :: ShownIfSeenNow(c.root, lib, c.started, t, p))
  {
    var t := AfterAll(EMPTY, visits);
    RunsFromEmptyAreSound(world, c.slug, c.started + 1, visits);
    EmptyIsSound(world, c.slug, if visits == [] then c.started else visits[0].c.started);
    RunsKeepOrder(EMPTY, visits, c.started);
    ScanMirrorsInOrderIff(c, world, t, lib);
  }

  lemma OneItemVisit(c: Config, info: DirInfo, it: Item)
    requires StartWalk(c, EMPTY, info).Some?
    ensures AfterAll(EMPTY, [Visit(c, info, [it], Walking)]) == Step(c, StartWalk(c, EMPTY, info).value, it).0.t
  {
    var v, w := Visit(c, info, [it], Walking), StartWalk(c, EMPTY, info).value;
    assert [it][1..] == [] && [v][1..] == [];
    assert Feed(c, w, [it]) == Feed(c, Step(c, w, it).0, []);
    assert AfterAll(AfterVisit(EMPTY, v), []) == AfterVisit(EMPTY, v);
  }

  lemma FirstFolderSeen(c: Config, world: World, info: DirInfo, it: Item)
    requires Injective(world, c.slug) && c.faults == {} && c.root in world.dirs
    requires FaithfulItem(world, it) && VisibleDir(it.node) && it.dir == c.root
    ensures StartWalk(c, EMPTY, info).Some?
    ensures var t := Step(c, StartWalk(c, EMPTY, info).value, it).0.t;
            it.At() in t.folders && t.folders[it.At()].seenAt == c.started
  {
    EmptyIsSound(world, c.slug, c.started);
    StartSound(c, world, EMPTY, info);
    var w := StartWalk(c, EMPTY, info).value;
    DirOnTheWay(c, world, w, it);
    StartKeepsOrder(c, EMPTY, info);
    StepKeepsOrder(c, w, it);
  }

  lemma OneFolderVisit(c: Config, world: World, name: string) returns (v: Visit)
    requires Injective(world, c.slug) && c.faults == {} && c.root == [] && [] in world.dirs && [name] in world.dirs
    requires VisibleDir(Dir(name, DirInfo(0, None, None), []))
    ensures FaithfulRun(world, c, [v]) && ClockForward([v], c.started)
    ensures var t := AfterAll(EMPTY, [v]); [name] in t.folders && t.folders[[name]].seenAt == c.started
  {
    var info := DirInfo(0, None, None);
    var it := Item([], Dir(name, info, []));
    assert it.At() == [name];
    v := Visit(c, info, [it], Walking);
    FirstFolderSeen(c, world, info, it);
    OneItemVisit(c, info, it);
  }

  /** A directory that a scan has stamped, removed within that second: a rescan in the same second,
      over the tree without it, does not mirror the tree. */
  lemma RemovedWithinTheSecond() returns (c: Config, world: World, visits: seq<Visit>, lib: Library)
    ensures Injective(world, c.slug) && c.faults == {} && FaithfulRun(world, c, visits)
    ensures ClockForward(visits, c.started) && DistinctNames(lib.kids) && Faithful(world, c.root, lib.kids)
    ensures var t := AfterAll(EMPTY, visits);
            StartWalk(c, t, lib.info).Some? &&
            !Mirrors(c.root, c.libraryName, lib, Sweep(WalkLibrary(c, t, lib).t, c.started))
  {
    c := Config([], None, 7, p => if p == [] then "root" else "other", p => None, {});
    world := World((p, s) => Content(None, None, None), iset{[], ["d"]});
    lib := Library(DirInfo(0, None, None), []);
    var v := OneFolderVisit(c, world, "d");
    visits := [v];
    RescanMirrorsIff(c, world, visits, lib);
    assert !ShownIfSeenNow(c.root, lib, c.started, AfterAll(EMPTY, visits), ["d"]);
  }

  // ---------------------------------------------------------------------
  // Tokens of a rescan and of a first scan
  // ---------------------------------------------------------------------

  /** A completed scan, prewarming included. */
  ghost predicate Completed(c: Config, t: Tables, lib: Library, t': Tables) {
    ScanLeft(c, t, lib, NoTrouble, true, t')
  }

  /** From any sound tables, a folder whose candidates of least key share one hash gets the token
      that the same scan of an empty database gives it. */
  lemma IncrementalSameToken(c: Config, world: World, t: Tables, lib: Library, a: Tables, b: Tables, p: Path)
    requires SoundTables(world, c.slug, c.started, t) && Injective(world, c.slug) && c.root !in c.faults
    requires DistinctNames(lib.kids) && Faithful(world, c.root, lib.kids)
    requires Completed(c, t, lib, a) && Completed(c, EMPTY, lib, b)
    requires p in b.folders && NoTies(b, p)
    ensures p in a.folders && a.folders[p].coverVersion == b.folders[p].coverVersion
  {
    IncrementalEqualsFresh(c, world, t, lib);
    SweptBrowsable(c, t, lib);
    SweptBrowsable(c, EMPTY, lib);
    SameTokenOf(c, Sweep(WalkLibrary(c, t, lib).t, c.started), a, Sweep(WalkLibrary(c, EMPTY, lib).t, c.started), b, p);
  }

  lemma SweptBrowsable(c: Config, t: Tables, lib: Library)
    requires Wellformed(t) && DistinctNames(lib.kids) && StartWalk(c, t, lib.info).Some? && AllOlder(t, c.started)
    ensures var u := Sweep(WalkLibrary(c, t, lib).t, c.started); Wellformed(u) && Rooted(u, c.root)
  {
    WalkLibraryWalked(c, t, lib);
    SweepKeepsTree(WalkLibrary(c, t, lib).t, c.started);
    ScanLeavesOneRoot(c, t, lib);
  }

  lemma SameTokenOf(c: Config, a0: Tables, a: Tables, b0: Tables, b: Tables, p: Path)
    requires Wellformed(a0) && Wellformed(b0) && Rooted(a0, c.root) && Rooted(b0, c.root) && SameIndex(a0, b0)
    requires Refreshed(a0, a, c.coverMtime) && Refreshed(b0, b, c.coverMtime) && p in b.folders && NoTies(b, p)
    ensures p in a.folders && a.folders[p].coverVersion == b.folders[p].coverVersion
  {
    SameIndexFlips(a0, b0);
    assert SameIndexAt(b0, a0, p);
    TiesIgnoreTokens(b0, b, p);
    SameIndexSameToken(c, b0, b, a0, a, p);
  }

  lemma SameIndexFlips(t: Tables, u: Tables)
    requires SameIndex(t, u)
    ensures SameIndex(u, t)
  {
    forall p
      ensures SameIndexAt(u, t, p)
    {
      assert SameIndexAt(t, u, p);
    }
  }

  /** So a rescan after any run of earlier scans stores the token of a first scan there. */
  lemma RescanSameToken(c: Config, world: World, visits: seq<Visit>, lib: Library, a: Tables, b: Tables, p: Path)
    requires Injective(world, c.slug) && c.root !in c.faults
    requires forall v :: v in visits ==> FaithfulVisit(world, c.slug, c.started, v)
    requires DistinctNames(lib.kids) && Faithful(world, c.root, lib.kids)
    requires Completed(c, AfterAll(EMPTY, visits), lib, a) && Completed(c, EMPTY, lib, b)
    requires p in b.folders && NoTies(b, p)
    ensures p in a.folders && a.folders[p].coverVersion == b.folders[p].coverVersion
  {
    RunsFromEmptyAreSound(world, c.slug, c.started, visits);
    IncrementalSameToken(c, world, AfterAll(EMPTY, visits), lib, a, b, p);
  }

  // ---------------------------------------------------------------------
  // ... and exactly when
  // ---------------------------------------------------------------------

  lemma {:induction false} FirstExists(t: Tables, from: set<Path>) returns (b: Path)
    requires from <= t.books.Keys && from != {}
    ensures IsFirst(t, from, b)
    decreases |from|
  {
    var p :| p in from;
    BookBeforeTotal(t, p, p);
    if from == {p} {
      b := p;
    } else {
      var rest := from - {p};
      assert from == rest + {p};
      var q := FirstExists(t, rest);
      BookBeforeTotal(t, p, q);
      if BookBefore(t, p, q) {
        forall x | x in rest
          ensures BookBefore(t, p, x)
        {
          BookBeforeTransitive(t, p, q, x);
        }
        b := p;
      } else {
        b := q;
      }
    }
  }

  lemma TokenExists(t: Tables, coverMtime: Path -> Option<nat>, a: Path)
    requires a in t.folders
    ensures exists v :: IsCoverToken(t, coverMtime, a, v)
  {
    var cover := t.folders[a].cover;
    if cover.Some? && coverMtime(cover.value).Some? {
      assert IsCoverToken(t, coverMtime, a, Some("p" + Decimal(coverMtime(cover.value).value)));
    } else if CoverCandidates(t, a) == {} {
      assert IsCoverToken(t, coverMtime, a, None);
    } else {
      var b := FirstExists(t, CoverCandidates(t, a));
      assert IsCoverToken(t, coverMtime, a, Some(t.books[b].hash));
    }
  }

  ghost function TokenOf(t: Tables, coverMtime: Path -> Option<nat>, a: Path): (v: Option<string>)
    requires a in t.folders
    ensures IsCoverToken(t, coverMtime, a, v)
  {
    TokenExists(t, coverMtime, a);
    var v :| IsCoverToken(t, coverMtime, a, v);
    v
  }

  /** Every scan can be completed. */
  lemma CompletionExists(c: Config, t: Tables, lib: Library) returns (t': Tables)
    requires StartWalk(c, t, lib.info).Some?
    ensures Completed(c, t, lib, t')
  {
    var u := Sweep(WalkLibrary(c, t, lib).t, c.started);
    var tokens := map p | p in u.folders :: TokenOf(u, c.coverMtime, p);
    t' := SetCoverVersions(u, tokens);
    forall p | p in u.folders
      ensures SameButTokenAt(u, t', p)
    {
    }
  }

  ghost predicate NoBooksYet(c: Config, world: World, w: State) {
    Sound(c, world, w) && w.t.books == map[] && w.t.lastBook == 0
  }

  lemma DirOnTheWay(c: Config, world: World, w: State, it: Item)
    requires NoBooksYet(c, world, w) && Injective(world, c.slug) && c.faults == {} && FaithfulItem(world, it)
    requires it.dir in w.ids && VisibleDir(it.node)
    ensures NoBooksYet(c, world, Step(c, w, it).0) && it.At() in Step(c, w, it).0.ids
  {
    assert Parent(it.At()) == it.dir;
    StepKeepsSound(c, world, w, it);
    FolderOutcome(c, world, w.t, it.At(), Some(w.ids[it.dir]), None, it.node.info);
    UpsertFolderKeepsTree(c, w.t, it.At(), Some(w.ids[it.dir]), None, it.node.info);
  }

  lemma BookAtTheEnd(c: Config, world: World, w: State, it: Item)
    requires NoBooksYet(c, world, w) && c.faults == {} && it.dir in w.ids
    requires VisibleBook(it.node) && Acceptable(it.node.file)
    ensures var t := Step(c, w, it).0.t; it.At() in t.books && t.books[it.At()].id == 1
  {
    assert Parent(it.At()) == it.dir;
    UpsertBookKeepsTree(c, w.t, it.At(), w.ids[it.dir], it.node.file);
  }

  /** The entries from `it` down to a book, yielded one after the other into tables without books,
      leave that book with the first id. */
  lemma {:induction false} ChainToBook(c: Config, world: World, w: State, it: Item, p: Path, n: Node)
      returns (items: seq<Item>)
    requires NoBooksYet(c, world, w) && Injective(world, c.slug) && c.faults == {} && FaithfulItem(world, it)
    requires it.dir in w.ids && Shown(it, p, n) && VisibleBook(n) && Acceptable(n.file)
    ensures FaithfulWork(world, items)
    ensures var t := Feed(c, w, items).t; p in t.books && t.books[p].id == 1
    decreases it.node
  {
    if p == it.At() && n == it.node {
      BookAtTheEnd(c, world, w, it);
      items := [it];
      assert items[1..] == [];
    } else {
      var k :| k in it.node.kids && Shown(Item(it.At(), k), p, n);
      DirOnTheWay(c, world, w, it);
      var more := ChainToBook(c, world, Step(c, w, it).0, Item(it.At(), k), p, n);
      items := [it] + more;
      assert items[1..] == more;
    }
  }

  /** A first scan cut off right after a given book of the tree leaves it with the first id. */
  lemma BookFirst(c: Config, world: World, lib: Library, p: Path) returns (v: Visit)
    requires Injective(world, c.slug) && c.faults == {} && Faithful(world, c.root, lib.kids)
    requires IsShownBook(c.root, lib, p)
    ensures FaithfulVisit(world, c.slug, c.started + 1, v) && v.c == c
    ensures p in AfterVisit(EMPTY, v).books && AfterVisit(EMPTY, v).books[p].id == 1
  {
    StartSound(c, world, EMPTY, lib.info);
    var w := StartWalk(c, EMPTY, lib.info).value;
    var n :| VisibleBook(n) && Acceptable(n.file) && ShownIn(c.root, lib, p, n);
    var k :| k in lib.kids && Shown(Item(c.root, k), p, n);
    var items := ChainToBook(c, world, w, Item(c.root, k), p, n);
    v := Visit(c, lib.info, items, Walking);
  }

  /** The book of the first id wins every tie. */
  lemma FirstIdWins(t: Tables, a: Path, x: Path, h: Option<string>)
    requires BookIds(t) && a in t.folders && x in CoverCandidates(t, a) && LeastKey(t, CoverCandidates(t, a), x)
    requires t.books[x].id == 1 && IsCoverHash(t, a, h)
    ensures h == Some(t.books[x].hash)
  {
    var from := CoverCandidates(t, a);
    forall y | y in from
      ensures BookBefore(t, x, y)
    {
      assert Lex(t.books[x].sortKey, t.books[y].sortKey) != Greater;
    }
    assert IsFirst(t, from, x);
    var b :| b in from && IsFirst(t, from, b) && t.books[b].hash == h.value;
    FirstIsUnique(t, from, b, x);
  }

  ghost predicate NoCoverFile(c: Config, t: Tables, p: Path)
    requires p in t.folders
  {
    t.folders[p].cover.Some? ==> c.coverMtime(t.folders[p].cover.value).None?
  }

  /** If a given book was seen first, its hash is the token wherever it ties for the least key. */
  lemma TokenOfFirstSeen(c: Config, t: Tables, t': Tables, p: Path, x: Path)
    requires Wellformed(t) && Refreshed(t, t', c.coverMtime) && p in t.folders && NoCoverFile(c, t, p)
    requires x in CoverCandidates(t, p) && LeastKey(t, CoverCandidates(t, p), x) && t.books[x].id == 1
    ensures t'.folders[p].coverVersion == Some(t.books[x].hash)
  {
    var h := t'.folders[p].coverVersion;
    assert IsCoverToken(t, c.coverMtime, p, h);
    FirstIdWins(t, p, x, h);
  }

  /** Two tied books with different hashes: one of them is not the one whose hash was stored. */
  lemma OtherTie(t: Tables, p: Path, h: Option<string>) returns (x: Path)
    requires p in t.folders && !NoTies(t, p)
    ensures x in CoverCandidates(t, p) && LeastKey(t, CoverCandidates(t, p), x) && Some(t.books[x].hash) != h
  {
    var from := CoverCandidates(t, p);
    var b, y :| b in from && y in from && LeastKey(t, from, b) && LeastKey(t, from, y) &&
                t.books[b].hash != t.books[y].hash;
    x := if Some(t.books[b].hash) != h then b else y;
  }

  /** No write faults, well-named entries, contents the world gives, and distinct slugs. */
  ghost predicate Scannable(c: Config, world: World, lib: Library) {
    Injective(world, c.slug) && c.faults == {} && DistinctNames(lib.kids) && Faithful(world, c.root, lib.kids)
  }

  ghost predicate EarlierRun(world: World, c: Config, visits: seq<Visit>) {
    forall v :: v in visits ==> FaithfulVisit(world, c.slug, c.started, v)
  }

  lemma ShownInIndex(c: Config, world: World, lib: Library, x: Path)
    requires Scannable(c, world, lib)
    requires StartWalk(c, EMPTY, lib.info).Some?
    requires x in Sweep(WalkLibrary(c, EMPTY, lib).t, c.started).books
    ensures IsShownBook(c.root, lib, x)
  {
    ScanMirrorsTree(c, world, EMPTY, lib);
    assert MirrorsBookAt(c.root, lib, Sweep(WalkLibrary(c, EMPTY, lib).t, c.started), x);
  }

  /** What a rescan stores where a tied book has the first id. */
  lemma TokenWherePreferred(c: Config, a0: Tables, a: Tables, b0: Tables, p: Path, x: Path)
    requires Wellformed(a0) && Wellformed(b0) && Rooted(a0, c.root) && Rooted(b0, c.root) && SameIndex(a0, b0)
    requires Refreshed(a0, a, c.coverMtime) && p in b0.folders && NoCoverFile(c, b0, p)
    requires x in CoverCandidates(b0, p) && LeastKey(b0, CoverCandidates(b0, p), x)
    requires x in a0.books ==> a0.books[x].id == 1
    ensures p in a.folders && a.folders[p].coverVersion == Some(b0.books[x].hash)
  {
    assert SameIndexAt(a0, b0, p) && SameIndexAt(a0, b0, x);
    SameIndexCandidates(c.root, a0, b0, p);
    SameIndexLeastKey(a0, b0, CoverCandidates(b0, p), x);
    TokenOfFirstSeen(c, a0, a, p, x);
  }

  /** A scan that starts before another, cut off right after book `x`. */
  lemma VisitPreferring(c: Config, world: World, lib: Library, x: Path) returns (v: Visit)
    requires Injective(world, c.slug) && Faithful(world, c.root, lib.kids) && IsShownBook(c.root, lib, x)
    ensures EarlierRun(world, c, [v]) && SoundTables(world, c.slug, c.started, AfterAll(EMPTY, [v]))
    ensures x in AfterAll(EMPTY, [v]).books && AfterAll(EMPTY, [v]).books[x].id == 1
  {
    v := BookFirst(c.(started := c.started - 1, faults := {}), world, lib, x);
    assert [v][1..] == [];
    RunsFromEmptyAreSound(world, c.slug, c.started, [v]);
  }

  /** What a completed rescan stores where a tied book has the first id. */
  lemma RescanPrefers(c: Config, world: World, t: Tables, lib: Library, a: Tables, p: Path, x: Path)
    requires SoundTables(world, c.slug, c.started, t) && x in t.books && t.books[x].id == 1
    requires Scannable(c, world, lib)
    requires Completed(c, t, lib, a) && StartWalk(c, EMPTY, lib.info).Some?
    requires var b0 := Sweep(WalkLibrary(c, EMPTY, lib).t, c.started);
             p in b0.folders && NoCoverFile(c, b0, p) &&
             x in CoverCandidates(b0, p) && LeastKey(b0, CoverCandidates(b0, p), x)
    ensures var b0 := Sweep(WalkLibrary(c, EMPTY, lib).t, c.started);
            p in a.folders && a.folders[p].coverVersion == Some(b0.books[x].hash)
  {
    IncrementalEqualsFresh(c, world, t, lib);
    SweptBrowsable(c, t, lib);
    SweptBrowsable(c, EMPTY, lib);
    TokenWherePreferred(c, Sweep(WalkLibrary(c, t, lib).t, c.started), a,
                        Sweep(WalkLibrary(c, EMPTY, lib).t, c.started), p, x);
  }

  ghost predicate SameToken(a: Tables, b: Tables, p: Path)
    requires p in b.folders
  {
    p in a.folders && a.folders[p].coverVersion == b.folders[p].coverVersion
  }

  /** Where books tie, some earlier scan, cut off in the middle, makes a rescan store another token. */
  lemma TieShowsInToken(c: Config, world: World, lib: Library, b: Tables, p: Path)
      returns (visits: seq<Visit>, a: Tables)
    requires Scannable(c, world, lib)
    requires Completed(c, EMPTY, lib, b) && p in b.folders && NoCoverFile(c, b, p) && !NoTies(b, p)
    ensures EarlierRun(world, c, visits) && Completed(c, AfterAll(EMPTY, visits), lib, a)
    ensures !SameToken(a, b, p)
  {
    var b0 := Sweep(WalkLibrary(c, EMPTY, lib).t, c.started);
    TiesIgnoreTokens(b0, b, p);
    assert SameButTokenAt(b0, b, p);
    var x := OtherTie(b0, p, b.folders[p].coverVersion);
    ShownInIndex(c, world, lib, x);
    var v := VisitPreferring(c, world, lib, x);
    visits := [v];
    StartSound(c, world, AfterAll(EMPTY, visits), lib.info);
    a := CompletionExists(c, AfterAll(EMPTY, visits), lib);
    RescanPrefers(c, world, AfterAll(EMPTY, visits), lib, a, p, x);
  }

  /** Every completed rescan, whatever earlier scans there were, stores the same token. */
  ghost predicate HistoryFree(c: Config, world: World, lib: Library, b: Tables, p: Path)
    requires p in b.folders
  {
    forall visits, a ::
      EarlierRun(world, c, visits) && Completed(c, AfterAll(EMPTY, visits), lib, a) ==> SameToken(a, b, p)
  }

  /** Where no cover file applies, the token of a folder is the same after every history of earlier
      scans if and only if its candidates of least key share one hash. */
  lemma TokenIsHistoryFreeIff(c: Config, world: World, lib: Library, b: Tables, p: Path)
    requires Scannable(c, world, lib)
    requires Completed(c, EMPTY, lib, b) && p in b.folders && NoCoverFile(c, b, p)
    ensures NoTies(b, p) <==> HistoryFree(c, world, lib, b, p)
  {
    if NoTies(b, p) {
      forall visits, a | EarlierRun(world, c, visits) && Completed(c, AfterAll(EMPTY, visits), lib, a)
        ensures SameToken(a, b, p)
      {
        RescanSameToken(c, world, visits, lib, a, b, p);
      }
    } else {
      var visits, a := TieShowsInToken(c, world, lib, b, p);
    }
  }

  // ---------------------------------------------------------------------
  // An example
  // ---------------------------------------------------------------------

  lemma CbzName(ch: char) returns (name: string)
    requires ch == 'a' || ch == 'A'
    ensures name == [ch] + ".cbz" && Supported(name) && !Hidden(name)
    ensures Stem(name) == [ch] && NatSort.Key(Stem(name)) == "a"
  {
    name := [ch] + ".cbz";
    assert name == [ch, '.', 'c', 'b', 'z'];
    assert name[..4] == [ch, '.', 'c', 'b'] && name[..4][..3] == [ch, '.', 'c'] && name[..4][..3][..2] == [ch, '.'];
    assert LastDot([ch, '.']) == 1;
    assert LastDot([ch, '.', 'c']) == 1;
    assert LastDot([ch, '.', 'c', 'b']) == 1;
    assert LastDot(name) == 1;
    assert LowerAll(name[2..]) == "cbz";
    assert name[..1] == [ch];
    NatSort.KeyStep([ch], 0);
    assert [ch][0..] == [ch] && [ch][1..] == [];
  }

  /** A root directory with two one-page archives of different content. */
  lemma TwoArchives(x: string, y: string) returns (c: Config, world: World, lib: Library)
    requires x != y
    ensures Scannable(c, world, lib) && c.root == [] && c.libraryName.None? && lib.info.coverName.None?
    ensures exists f, g :: lib.kids == [File(x, f), File(y, g)] && Acceptable(f) && Acceptable(g) &&
                           f.content.hash != g.content.hash
  {
    var st := Stat(1, 0);
    c := Config([], None, 1, p => "s", p => None, {});
    world := World((p, s) => Content(Some(if p == [x] then "1" else "2"), Some(Zip), Some(1)), iset{[]});
    var f, g := FileInfo(Some(st), world.content([x], st)), FileInfo(Some(st), world.content([y], st));
    lib := Library(DirInfo(0, None, None), [File(x, f), File(y, g)]);
    assert [] + [x] == [x] && [] + [y] == [y];
    assert [x] != [y] by {
      assert [x][0] != [y][0];
    }
    forall n | n in lib.kids
      ensures n.File? && FaithfulFile(world, [] + [n.name], n.file)
    {
    }
  }

  /** In a directory of plain files the books are among those files. */
  lemma OnlyFiles(lib: Library, p: Path)
    requires (forall n :: n in lib.kids ==> n.File?) && IsShownBook([], lib, p)
    ensures exists k :: k in lib.kids && p == [k.name]
  {
    var n :| VisibleBook(n) && Acceptable(n.file) && ShownIn([], lib, p, n);
    var k :| k in lib.kids && Shown(Item([], k), p, n);
    assert [] + [k.name] == [k.name];
  }

  lemma FileIsShown(lib: Library, k: Node)
    requires k in lib.kids && VisibleBook(k) && Acceptable(k.file)
    ensures ShownIn([], lib, [k.name], k) && IsShownBook([], lib, [k.name])
  {
    assert [] + [k.name] == [k.name];
    assert Shown(Item([], k), [k.name], k);
  }

  lemma FileIsListed(t: Tables, lib: Library, k: Node)
    requires Wellformed(t) && [] in t.folders && Mirrors([], None, lib, t)
    requires k in lib.kids && VisibleBook(k) && Acceptable(k.file)
    ensures [k.name] in t.books && t.books[[k.name]].sortKey == NatSort.Key(Stem(k.name))
    ensures Some(t.books[[k.name]].hash) == k.file.content.hash
    ensures [k.name] in BooksIn(t, t.folders[[]].id)
  {
    FileIsShown(lib, k);
    assert MirrorsBookAt([], lib, t, [k.name]);
    assert BookLink(t, [k.name]) && Parent([k.name]) == [];
  }

  lemma CandidateIsFile(t: Tables, lib: Library, p: Path)
    requires [] in t.folders && Mirrors([], None, lib, t) && (forall n :: n in lib.kids ==> n.File?)
    requires p in CoverCandidates(t, [])
    ensures exists k :: k in lib.kids && p == [k.name]
  {
    assert MirrorsBookAt([], lib, t, p);
    OnlyFiles(lib, p);
  }

  /** Two books of one key in the root directory tie. */
  lemma TwoFilesTie(t: Tables, lib: Library, x: Node, y: Node, key: string)
    requires Wellformed(t) && [] in t.folders && Mirrors([], None, lib, t) && lib.kids == [x, y]
    requires VisibleBook(x) && Acceptable(x.file) && VisibleBook(y) && Acceptable(y.file)
    requires NatSort.Key(Stem(x.name)) == key && NatSort.Key(Stem(y.name)) == key
    requires x.file.content.hash != y.file.content.hash
    ensures !NoTies(t, [])
  {
    assert x in lib.kids && y in lib.kids;
    FileIsListed(t, lib, x);
    FileIsListed(t, lib, y);
    var from := CoverCandidates(t, []);
    forall p | p in from
      ensures t.books[p].sortKey == key
    {
      CandidateIsFile(t, lib, p);
    }
    LexEqualIsIdentity(key, key);
    assert LeastKey(t, from, [x.name]) && LeastKey(t, from, [y.name]);
  }

  /** A completed first scan mirrors the tree. */
  lemma FirstScan(c: Config, world: World, lib: Library) returns (b: Tables)
    requires Scannable(c, world, lib)
    ensures Completed(c, EMPTY, lib, b) && Wellformed(b) && Mirrors(c.root, c.libraryName, lib, b)
    ensures c.root in b.folders && (lib.info.coverName.None? ==> b.folders[c.root].cover.None?)
  {
    StartSound(c, world, EMPTY, lib.info);
    b := CompletionExists(c, EMPTY, lib);
    ScanMirrorsTree(c, world, EMPTY, lib);
    TokensKeepMirror(c.root, c.libraryName, lib, Sweep(WalkLibrary(c, EMPTY, lib).t, c.started), b);
    SweptBrowsable(c, EMPTY, lib);
    TokensKeepTree(Sweep(WalkLibrary(c, EMPTY, lib).t, c.started), b);
    assert MirrorsFolderAt(c.root, c.libraryName, lib, b, c.root);
  }

  /** `a.cbz` and `A.cbz` with different content, side by side: after a scan that was cut off
      between them, a rescan stores another token for their directory than a first scan. */
  lemma TokenCanDiffer() returns (c: Config, world: World, lib: Library, visits: seq<Visit>, a: Tables, b: Tables)
    ensures Scannable(c, world, lib) && EarlierRun(world, c, visits)
    ensures Completed(c, AfterAll(EMPTY, visits), lib, a) && Completed(c, EMPTY, lib, b)
    ensures c.root in b.folders && !SameToken(a, b, c.root)
  {
    var x := CbzName('a');
    var y := CbzName('A');
    assert x[0] != y[0];
    c, world, lib := TwoArchives(x, y);
    b := FirstScan(c, world, lib);
    TwoFilesTie(b, lib, lib.kids[0], lib.kids[1], "a");
    visits, a := TieShowsInToken(c, world, lib, b, c.root);
  }
}
