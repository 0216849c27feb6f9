/** Runs of scans: complete ones, aborted ones, and scans cut off at any step while
    the file system changes under them (src/scan.rs:56-72, 75-225). */
module History {
  import opened Wrappers
  import opened Catalog
  import opened Walk
  import opened Marking
  import opened Sweeping
  import opened Scanner
  import opened Incremental

  /** How far a scan got: only (part of) the walk, the first delete, both deletes,
      or some of the token updates. */
  datatype End = Walking | BooksDeleted | FoldersDeleted | TokensStored(tokens: map<Path, Option<string>>)

  /** One scan, by the entries the walker yielded before it ended. Any entries at all
      may have been yielded: the tree may have changed between one and the next. */
  datatype Visit = Visit(c: Config, info: DirInfo, items: seq<Item>, end: End)

  function Feed(c: Config, w: State, items: seq<Item>): State
    decreases |items|
  {
    if items == [] then w else Feed(c, Step(c, w, items[0]).0, items[1..])
  }

  function Finish(t: Tables, started: int, end: End): Tables {
    match end
    case Walking => t
    case BooksDeleted => PruneBooks(t, started)
    case FoldersDeleted => Sweep(t, started)
    case TokensStored(tokens) => SetCoverVersions(Sweep(t, started), tokens)
  }

  function AfterVisit(t: Tables, v: Visit): Tables {
    var start := StartWalk(v.c, t, v.info);
    if start.None? then t
    else Finish(Feed(v.c, start.value, v.items).t, v.c.started, v.end)
  }

  function AfterAll(t: Tables, visits: seq<Visit>): Tables
    decreases |visits|
  {
    if visits == [] then t else AfterAll(AfterVisit(t, visits[0]), visits[1..])
  }

  // ---------------------------------------------------------------------
  // What every state of every run keeps
  // ---------------------------------------------------------------------

  lemma {:induction false} FeedKeepsTree(c: Config, w: State, items: seq<Item>)
    requires Wellformed(w.t) && IdsCurrent(w)
    ensures Wellformed(Feed(c, w, items).t)
    decreases |items|
  {
    if items != [] {
      StepKeepsTree(c, w, items[0]);
      FeedKeepsTree(c, Step(c, w, items[0]).0, items[1..]);
    }
  }

  lemma SweepKeepsTree(t: Tables, started: int)
    requires Wellformed(t)
    ensures Wellformed(Sweep(t, started))
  {
    PruneBooksKeepsTree(t, started);
    PruneFoldersKeepsTree(PruneBooks(t, started), started);
  }

  lemma FinishKeepsTree(t: Tables, started: int, end: End)
    requires Wellformed(t)
    ensures Wellformed(Finish(t, started, end))
  {
    match end
    case Walking =>
    case BooksDeleted => PruneBooksKeepsTree(t, started);
    case FoldersDeleted => SweepKeepsTree(t, started);
    case TokensStored(tokens) =>
      SweepKeepsTree(t, started);
      SetCoverVersionsKeepsTree(Sweep(t, started), tokens);
  }

  lemma StartKeepsTree(c: Config, t: Tables, info: DirInfo)
    requires Wellformed(t) && StartWalk(c, t, info).Some?
    ensures var w := StartWalk(c, t, info).value; Wellformed(w.t) && IdsCurrent(w)
  {
    UpsertFolderKeepsTree(c, t, c.root, None, c.libraryName, info);
  }

  lemma VisitKeepsTree(t: Tables, v: Visit)
    requires Wellformed(t)
    ensures Wellformed(AfterVisit(t, v))
  {
    var start := StartWalk(v.c, t, v.info);
    if start.Some? {
      StartKeepsTree(v.c, t, v.info);
      FeedKeepsTree(v.c, start.value, v.items);
      FinishKeepsTree(Feed(v.c, start.value, v.items).t, v.c.started, v.end);
    }
  }

  /** The tree invariant holds in every state of every run, mid-scan ones and ones
      after a change of library root included: rows hang under the row of their directory. */
  lemma {:induction false} TreeAtEveryStep(t: Tables, visits: seq<Visit>)
    requires Wellformed(t)
    ensures Wellformed(AfterAll(t, visits))
    decreases |visits|
  {
    if visits != [] {
      VisitKeepsTree(t, visits[0]);
      TreeAtEveryStep(AfterVisit(t, visits[0]), visits[1..]);
    }
  }

  /** Hence the parent graph has no cycle: following a parent link shortens the path. */
  lemma ParentGraphAcyclic(t: Tables, visits: seq<Visit>, p: Path)
    requires Wellformed(t)
    ensures var t' := AfterAll(t, visits);
            p in t'.folders && t'.folders[p].parent.Some? ==>
              exists q :: q in t'.folders && t'.folders[q].id == t'.folders[p].parent.value &&
                          q < p && |q| == |p| - 1
  {
    TreeAtEveryStep(t, visits);
    var t' := AfterAll(t, visits);
    if p in t'.folders && t'.folders[p].parent.Some? {
      assert FolderLink(t', p);
      assert Parent(p) < p;
    }
  }

  // ---------------------------------------------------------------------
  // A walk over a fixed tree is such a run
  // ---------------------------------------------------------------------

  function Yielded(c: Config, w: State, work: seq<Item>): seq<Item>
    decreases Size(work)
  {
    if work == [] then []
    else
      SizeShrinks(work, Step(c, w, work[0]).1);
      [work[0]] + Yielded(c, Next(c, w, work).0, Next(c, w, work).1)
  }

  lemma {:induction false} DriveIsFeed(c: Config, w: State, work: seq<Item>)
    ensures Drive(c, w, work) == Feed(c, w, Yielded(c, w, work))
    decreases Size(work)
  {
    if work != [] {
      SizeShrinks(work, Step(c, w, work[0]).1);
      var (w', work') := Next(c, w, work);
      DriveIsFeed(c, w', work');
      assert Yielded(c, w, work)[1..] == Yielded(c, w', work');
    }
  }

  /** The walker yields entries of the tree. */
  lemma {:induction false} YieldedIsFaithful(c: Config, world: World, w: State, work: seq<Item>)
    requires FaithfulWork(world, work)
    ensures FaithfulWork(world, Yielded(c, w, work))
    decreases Size(work)
  {
    if work != [] {
      SizeShrinks(work, Step(c, w, work[0]).1);
      assert work == [work[0]] + work[1..] && work[0] in work;
      FaithfulNext(world, work[0], work[1..], Step(c, w, work[0]).1);
      YieldedIsFaithful(c, world, Next(c, w, work).0, Next(c, w, work).1);
    }
  }

  function VisitOf(c: Config, t: Tables, lib: Library, end: End): Visit {
    var start := StartWalk(c, t, lib.info);
    Visit(c, lib.info, if start.None? then [] else Yielded(c, start.value, Items(c.root, lib.kids)), end)
  }

  /** The entries of a scan of a faithful tree are faithful, however far it gets. */
  lemma VisitOfIsFaithful(c: Config, world: World, t: Tables, lib: Library, end: End)
    requires Faithful(world, c.root, lib.kids)
    ensures FaithfulWork(world, VisitOf(c, t, lib, end).items)
  {
    var start := StartWalk(c, t, lib.info);
    if start.Some? {
      assert FaithfulWork(world, Items(c.root, lib.kids));
      YieldedIsFaithful(c, world, start.value, Items(c.root, lib.kids));
    }
  }

  /** A scan of a tree, as the scanner runs it and wherever it fails, is a visit; and
      if the tree is faithful, a faithful one. */
  lemma ScanIsVisit(c: Config, world: World, t: Tables, lib: Library, trouble: Trouble, ok: bool, t': Tables)
      returns (v: Visit)
    requires ScanLeft(c, t, lib, trouble, ok, t')
    ensures v.c == c && t' == AfterVisit(t, v)
    ensures Faithful(world, c.root, lib.kids) ==>
              forall now :: c.started < now ==> FaithfulVisit(world, c.slug, now, v)
  {
    var start := StartWalk(c, t, lib.info);
    var end :=
      match trouble
      case DeletingBooks => Walking
      case DeletingFolders => BooksDeleted
      case _ => TokensStored(TokensOf(t'));
    v := VisitOf(c, t, lib, end);
    if start.Some? {
      DriveIsFeed(c, start.value, Items(c.root, lib.kids));
      if end.TokensStored? {
        TokensAreSet(Sweep(WalkLibrary(c, t, lib).t, c.started), t');
      }
    }
    if Faithful(world, c.root, lib.kids) {
      VisitOfIsFaithful(c, world, t, lib, end);
    }
  }

  // ---------------------------------------------------------------------
  // Soundness over runs
  // ---------------------------------------------------------------------

  ghost predicate FaithfulVisit(world: World, slug: Path -> string, now: int, v: Visit) {
    v.c.slug == slug && v.c.started < now && v.c.root in world.dirs && FaithfulWork(world, v.items)
  }

  /** What a later scan may rely on. */
  ghost predicate SoundTables(world: World, slug: Path -> string, now: int, t: Tables) {
    Wellformed(t) && Trusted(world, t) && SlugsBy(world, slug, t) && AllOlder(t, now)
  }

  lemma EmptyIsSound(world: World, slug: Path -> string, now: int)
    ensures SoundTables(world, slug, now, EMPTY) && SeenOrdered(EMPTY) && NoneNewer(EMPTY, now)
  {
  }

  /** What any run of faithful scans of an empty database leaves. */
  lemma RunsFromEmptyAreSound(world: World, slug: Path -> string, now: int, visits: seq<Visit>)
    requires Injective(world, slug) && forall v :: v in visits ==> FaithfulVisit(world, slug, now, v)
    ensures SoundTables(world, slug, now, AfterAll(EMPTY, visits))
  {
    EmptyIsSound(world, slug, now);
    RunsAreSound(world, slug, now, EMPTY, visits);
  }

  lemma StepKeepsOlder(c: Config, now: int, w: State, it: Item)
    requires Wellformed(w.t) && IdsCurrent(w) && AllOlder(w.t, now) && c.started < now
    ensures AllOlder(Step(c, w, it).0.t, now)
  {
    assert Parent(it.At()) == it.dir;
    if VisibleDir(it.node) && it.dir in w.ids {
      UpsertFolderKeepsTree(c, w.t, it.At(), Some(w.ids[it.dir]), None, it.node.info);
    } else if VisibleBook(it.node) && it.dir in w.ids {
      UpsertBookKeepsTree(c, w.t, it.At(), w.ids[it.dir], it.node.file);
    }
  }

  lemma {:induction false} FeedKeepsSound(c: Config, world: World, now: int, w: State, items: seq<Item>)
    requires Sound(c, world, w) && Injective(world, c.slug) && FaithfulWork(world, items)
    requires AllOlder(w.t, now) && c.started < now
    ensures Sound(c, world, Feed(c, w, items)) && AllOlder(Feed(c, w, items).t, now)
    decreases |items|
  {
    if items != [] {
      assert items[0] in items;
      StepKeepsSound(c, world, w, items[0]);
      StepKeepsOlder(c, now, w, items[0]);
      FeedKeepsSound(c, world, now, Step(c, w, items[0]).0, items[1..]);
    }
  }

  /** Deleting rows and storing tokens change nothing a later scan relies on. */
  ghost predicate Thinned(t: Tables, t': Tables) {
    (forall p :: p in t'.books ==> p in t.books && t'.books[p] == t.books[p]) &&
    (forall p :: p in t'.folders ==>
       p in t.folders && t'.folders[p] == t.folders[p].(coverVersion := t'.folders[p].coverVersion))
  }

  lemma ThinnedIsSound(world: World, slug: Path -> string, now: int, t: Tables, t': Tables)
    requires Trusted(world, t) && SlugsBy(world, slug, t) && AllOlder(t, now) && Thinned(t, t')
    ensures Trusted(world, t') && SlugsBy(world, slug, t') && AllOlder(t', now)
  {
  }

  lemma FinishThins(t: Tables, started: int, end: End)
    ensures Thinned(t, Finish(t, started, end))
  {
  }

  lemma StartIsOlder(c: Config, t: Tables, info: DirInfo, now: int)
    requires AllOlder(t, now) && c.started < now && Wellformed(t) && StartWalk(c, t, info).Some?
    ensures AllOlder(StartWalk(c, t, info).value.t, now)
  {
    UpsertFolderKeepsTree(c, t, c.root, None, c.libraryName, info);
  }

  lemma VisitKeepsSound(world: World, slug: Path -> string, now: int, t: Tables, v: Visit)
    requires SoundTables(world, slug, now, t) && FaithfulVisit(world, slug, now, v) && Injective(world, slug)
    ensures SoundTables(world, slug, now, AfterVisit(t, v))
  {
    VisitKeepsTree(t, v);
    StartSound(v.c, world, t, v.info);
    var start := StartWalk(v.c, t, v.info);
    if start.Some? {
      StartIsOlder(v.c, t, v.info, now);
      FeedKeepsSound(v.c, world, now, start.value, v.items);
      var walked := Feed(v.c, start.value, v.items).t;
      FinishThins(walked, v.c.started, v.end);
      ThinnedIsSound(world, slug, now, walked, AfterVisit(t, v));
    }
  }

  lemma {:induction false} RunsAreSound(world: World, slug: Path -> string, now: int, t: Tables, visits: seq<Visit>)
    requires SoundTables(world, slug, now, t) && Injective(world, slug)
    requires forall v :: v in visits ==> FaithfulVisit(world, slug, now, v)
    ensures SoundTables(world, slug, now, AfterAll(t, visits))
    decreases |visits|
  {
    if visits != [] {
      VisitKeepsSound(world, slug, now, t, visits[0]);
      RunsAreSound(world, slug, now, AfterVisit(t, visits[0]), visits[1..]);
    }
  }

  /** After any run of earlier scans, complete or cut off anywhere, a scan with a
      strictly later start leaves the index a first scan would leave, on a well-formed
      tree; surviving rows keep their ids, and books the time they were added, which for
      a new book is the start of the scan. */
  lemma RescanEqualsFirstScan(c: Config, world: World, visits: seq<Visit>, lib: Library)
    requires Injective(world, c.slug) && c.root !in c.faults
    requires forall v :: v in visits ==> FaithfulVisit(world, c.slug, c.started, v)
    requires DistinctNames(lib.kids) && Faithful(world, c.root, lib.kids)
    ensures var t := AfterAll(EMPTY, visits);
            StartWalk(c, t, lib.info).Some? && StartWalk(c, EMPTY, lib.info).Some? &&
            var a := Sweep(WalkLibrary(c, t, lib).t, c.started);
            var b := Sweep(WalkLibrary(c, EMPTY, lib).t, c.started);
            Wellformed(a) && Wellformed(b) && SameIndex(a, b) &&
            (forall p :: p in t.folders && p in a.folders ==> a.folders[p].id == t.folders[p].id) &&
            (forall p :: p in t.books && p in a.books ==> a.books[p].id == t.books[p].id) &&
            (forall p :: p in a.books ==>
               a.books[p].addedAt == if p in t.books then t.books[p].addedAt else c.started)
  {
    RunsFromEmptyAreSound(world, c.slug, c.started, visits);
    var t := AfterAll(EMPTY, visits);
    IncrementalEqualsFresh(c, world, t, lib);
    WalkLibraryWalked(c, t, lib);
    WalkLibraryWalked(c, EMPTY, lib);
    SweepKeepsTree(WalkLibrary(c, t, lib).t, c.started);
    SweepKeepsTree(WalkLibrary(c, EMPTY, lib).t, c.started);
  }

  // ---------------------------------------------------------------------
  // While the clock does not go back
  // ---------------------------------------------------------------------

  /** No row is seen later than the row above it or than `now`, and the directories known
      to the walk were seen at `now`. */
  ghost predicate SeenInOrder(w: State, now: int) {
    SeenOrdered(w.t) && NoneNewer(w.t, now) &&
    forall d :: d in w.ids && d in w.t.folders ==> w.t.folders[d].seenAt == now
  }

  lemma PutFolderKeepsOrder(t: Tables, p: Path, row: Folder, last: int)
    requires SeenOrdered(t) && NoneNewer(t, row.seenAt)
    requires row.parent.Some? ==> p != [] && Parent(p) in t.folders && t.folders[Parent(p)].seenAt == row.seenAt
    ensures var t' := t.(folders := t.folders[p := row], lastFolder := last);
            SeenOrdered(t') && NoneNewer(t', row.seenAt)
  {
    var t' := t.(folders := t.folders[p := row], lastFolder := last);
    forall q | q in t'.folders
      ensures FolderSeenInOrder(t', q)
    {
      if q != p {
        assert FolderSeenInOrder(t, q);
      } else if q != [] {
        assert |Parent(q)| < |q|;
      }
    }
    forall q | q in t'.books
      ensures BookSeenInOrder(t', q)
    {
      assert BookSeenInOrder(t, q);
    }
  }

  lemma PutBookKeepsOrder(t: Tables, p: Path, row: Book, last: int)
    requires SeenOrdered(t) && NoneNewer(t, row.seenAt)
    requires p != [] && Parent(p) in t.folders && t.folders[Parent(p)].seenAt == row.seenAt
    ensures var t' := t.(books := t.books[p := row], lastBook := last);
            SeenOrdered(t') && NoneNewer(t', row.seenAt)
  {
    var t' := t.(books := t.books[p := row], lastBook := last);
    forall q | q in t'.folders
      ensures FolderSeenInOrder(t', q)
    {
      assert FolderSeenInOrder(t, q);
    }
    forall q | q in t'.books
      ensures BookSeenInOrder(t', q)
    {
      assert q != p ==> BookSeenInOrder(t, q);
    }
  }

  lemma StepKeepsOrder(c: Config, w: State, it: Item)
    requires Wellformed(w.t) && IdsCurrent(w) && SeenInOrder(w, c.started)
    ensures SeenInOrder(Step(c, w, it).0, c.started)
  {
    var p, w' := it.At(), Step(c, w, it).0;
    assert Parent(p) == it.dir;
    if VisibleDir(it.node) && it.dir in w.ids {
      UpsertFolderKeepsTree(c, w.t, p, Some(w.ids[it.dir]), None, it.node.info);
      if w'.t != w.t {
        PutFolderKeepsOrder(w.t, p, w'.t.folders[p], w'.t.lastFolder);
      }
    } else if VisibleBook(it.node) && it.dir in w.ids {
      UpsertBookKeepsTree(c, w.t, p, w.ids[it.dir], it.node.file);
      if w'.t != w.t {
        PutBookKeepsOrder(w.t, p, w'.t.books[p], w'.t.lastBook);
      }
    }
  }

  lemma {:induction false} FeedKeepsOrder(c: Config, w: State, items: seq<Item>)
    requires Wellformed(w.t) && IdsCurrent(w) && SeenInOrder(w, c.started)
    ensures SeenInOrder(Feed(c, w, items), c.started)
    decreases |items|
  {
    if items != [] {
      StepKeepsTree(c, w, items[0]);
      StepKeepsOrder(c, w, items[0]);
      FeedKeepsOrder(c, Step(c, w, items[0]).0, items[1..]);
    }
  }

  lemma StartKeepsOrder(c: Config, t: Tables, info: DirInfo)
    requires Wellformed(t) && SeenOrdered(t) && NoneNewer(t, c.started) && StartWalk(c, t, info).Some?
    ensures SeenInOrder(StartWalk(c, t, info).value, c.started)
  {
    UpsertFolderKeepsTree(c, t, c.root, None, c.libraryName, info);
    var t' := StartWalk(c, t, info).value.t;
    PutFolderKeepsOrder(t, c.root, t'.folders[c.root], t'.lastFolder);
  }

  /** With a clock that has not gone back, a walk keeps the order. */
  lemma WalkKeepsSeenOrder(c: Config, t: Tables, lib: Library)
    requires Wellformed(t) && StartWalk(c, t, lib.info).Some?
    requires SeenOrdered(t) && NoneNewer(t, c.started)
    ensures SeenOrdered(WalkLibrary(c, t, lib).t) && NoneNewer(WalkLibrary(c, t, lib).t, c.started)
  {
    var w, work := StartWalk(c, t, lib.info).value, Items(c.root, lib.kids);
    StartKeepsTree(c, t, lib.info);
    StartKeepsOrder(c, t, lib.info);
    DriveIsFeed(c, w, work);
    FeedKeepsOrder(c, w, Yielded(c, w, work));
  }

  /** Deleting rows and storing tokens keep the order, as long as every row keeps the row above it. */
  lemma ThinnedKeepsOrder(t: Tables, t': Tables, now: int)
    requires SeenOrdered(t) && NoneNewer(t, now) && Thinned(t, t') && Links(t')
    ensures SeenOrdered(t') && NoneNewer(t', now)
  {
    forall q | q in t'.folders
      ensures FolderSeenInOrder(t', q)
    {
      assert FolderLink(t', q) && FolderSeenInOrder(t, q);
    }
    forall q | q in t'.books
      ensures BookSeenInOrder(t', q)
    {
      assert BookLink(t', q) && BookSeenInOrder(t, q);
    }
  }

  /** A visit that starts no earlier than anything was last seen keeps the order, wherever it is cut off. */
  lemma VisitKeepsOrder(t: Tables, v: Visit)
    requires Wellformed(t) && SeenOrdered(t) && NoneNewer(t, v.c.started)
    ensures SeenOrdered(AfterVisit(t, v)) && NoneNewer(AfterVisit(t, v), v.c.started)
  {
    var start := StartWalk(v.c, t, v.info);
    if start.Some? {
      StartKeepsTree(v.c, t, v.info);
      StartKeepsOrder(v.c, t, v.info);
      FeedKeepsTree(v.c, start.value, v.items);
      FeedKeepsOrder(v.c, start.value, v.items);
      var walked := Feed(v.c, start.value, v.items).t;
      FinishThins(walked, v.c.started, v.end);
      FinishKeepsTree(walked, v.c.started, v.end);
      ThinnedKeepsOrder(walked, AfterVisit(t, v), v.c.started);
    }
  }

  /** The start times of a run do not decrease, and `now` is not before any of them. */
  ghost predicate ClockForward(visits: seq<Visit>, now: int) {
    (forall i, j :: 0 <= i < j < |visits| ==> visits[i].c.started <= visits[j].c.started) &&
    (forall i :: 0 <= i < |visits| ==> visits[i].c.started <= now)
  }

  lemma NewerIsLater(t: Tables, now: int, later: int)
    requires NoneNewer(t, now) && now <= later
    ensures NoneNewer(t, later)
  {
  }

  /** So does every run on a clock that does not go back. */
  lemma {:induction false} RunsKeepOrder(t: Tables, visits: seq<Visit>, now: int)
    requires Wellformed(t) && SeenOrdered(t) && ClockForward(visits, now)
    requires NoneNewer(t, if visits == [] then now else visits[0].c.started)
    ensures SeenOrdered(AfterAll(t, visits)) && NoneNewer(AfterAll(t, visits), now)
    decreases |visits|
  {
    if visits != [] {
      var v, rest := visits[0], visits[1..];
      VisitKeepsTree(t, v);
      VisitKeepsOrder(t, v);
      assert forall i :: 0 <= i < |rest| ==> rest[i] == visits[i + 1];
      NewerIsLater(AfterVisit(t, v), v.c.started, if rest == [] then now else rest[0].c.started);
      RunsKeepOrder(AfterVisit(t, v), rest, now);
    }
  }
}
