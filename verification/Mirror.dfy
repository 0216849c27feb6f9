/** A scan without write errors leaves exactly the visible tree (src/scan.rs:96-208). */
module Mirror {
  import opened Wrappers
  import opened Catalog
  import opened Walk
  import opened Marking
  import opened Sweeping
  import opened Scanner
  import opened Incremental

  /** `n` is the entry at path `p` under `it`, and every folder from `it` down to `p` is visible. */
  ghost predicate Shown(it: Item, p: Path, n: Node)
    decreases it.node
  {
    (p == it.At() && n == it.node) ||
    (VisibleDir(it.node) && exists k :: k in it.node.kids && Shown(Item(it.At(), k), p, n))
  }

  ghost predicate ShownIn(root: Path, lib: Library, p: Path, n: Node) {
    exists k :: k in lib.kids && Shown(Item(root, k), p, n)
  }

  /** An archive the scanner accepts: small enough, readable, with 1 to 10000 pages. */
  predicate Acceptable(f: FileInfo) {
    && f.stat.Some? && f.stat.value.size <= 0x1_0000_0000
    && f.content.hash.Some? && f.content.kind.Some? && f.content.pages.Some?
    && 1 <= f.content.pages.value <= 10_000
  }

  function FormatName(k: Kind): string {
    match k
    case Zip => "cbz"
    case Rar => "cbr"
  }

  /** A file gets its row exactly if the write succeeds and the file is small enough and either has the
      recorded size and time or is acceptable. */
  lemma StampedIff(c: Config, t: Tables, p: Path, f: FileInfo)
    ensures BookOutcome(c, t, p, f) == Stamped <==>
            p !in c.faults && f.stat.Some? && f.stat.value.size <= 0x1_0000_0000 &&
            ((p in t.books && t.books[p].size == f.stat.value.size && t.books[p].mtime == f.stat.value.mtime) ||
             Acceptable(f))
  {
  }

  ghost predicate FolderShows(f: Folder, p: Path, name: string, info: DirInfo) {
    && f.name == name && f.sortKey == NatSort.Key(name) && f.description == info.description
    && f.mtime == info.mtime
    && f.cover == if info.coverName.Some? then Some(p + [info.coverName.value]) else None
  }

  ghost predicate BookShows(b: Book, p: Path, f: FileInfo)
    requires p != [] && Acceptable(f)
  {
    && b.hash == f.content.hash.value && b.pages == f.content.pages.value
    && b.format == FormatName(f.content.kind.value)
    && b.size == f.stat.value.size && b.mtime == f.stat.value.mtime
    && b.name == Stem(Base(p)) && b.sortKey == NatSort.Key(b.name)
  }

  ghost predicate IsShownFolder(root: Path, lib: Library, p: Path) {
    p == root || exists n :: VisibleDir(n) && ShownIn(root, lib, p, n)
  }

  ghost predicate IsShownBook(root: Path, lib: Library, p: Path) {
    exists n :: VisibleBook(n) && Acceptable(n.file) && ShownIn(root, lib, p, n)
  }

  ghost predicate MirrorsFolderAt(root: Path, libraryName: Option<string>, lib: Library, t: Tables, p: Path) {
    (p in t.folders <==> IsShownFolder(root, lib, p)) &&
    (p == root && p in t.folders ==>
       FolderShows(t.folders[p], p, if libraryName.Some? then libraryName.value else if p == [] then "/" else Base(p),
                   lib.info)) &&
    (forall n :: p != root && p in t.folders && VisibleDir(n) && ShownIn(root, lib, p, n) ==>
       FolderShows(t.folders[p], p, n.name, n.info))
  }

  ghost predicate MirrorsBookAt(root: Path, lib: Library, t: Tables, p: Path) {
    (p in t.books <==> IsShownBook(root, lib, p)) &&
    (forall n :: p in t.books && VisibleBook(n) && ShownIn(root, lib, p, n) ==>
       p != [] && Acceptable(n.file) && BookShows(t.books[p], p, n.file))
  }

  /** The catalogue is the visible tree: same folders, same books, same data. */
  ghost predicate Mirrors(root: Path, libraryName: Option<string>, lib: Library, t: Tables) {
    (forall p :: MirrorsFolderAt(root, libraryName, lib, t, p)) &&
    (forall p :: MirrorsBookAt(root, lib, t, p))
  }

  lemma {:induction false} ReachedIsShown(it: Item, p: Path, n: Node, log: map<Path, Entry>)
    requires Reached(it, p, n, log)
    ensures Shown(it, p, n)
    decreases it.node
  {
    if !(p == it.At() && n == it.node) {
      var k :| k in it.node.kids && Reached(Item(it.At(), k), p, n, log);
      ReachedIsShown(Item(it.At(), k), p, n, log);
    }
  }

  lemma {:induction false} ReachedExtends(it: Item, q: Path, m: Node, k: Node, log: map<Path, Entry>)
    requires Reached(it, q, m, log) && VisibleDir(m) && IsStampedDir(log, q) && k in m.kids
    ensures Reached(it, q + [k.name], k, log)
    decreases it.node
  {
    if q == it.At() && m == it.node {
      assert Reached(Item(it.At(), k), q + [k.name], k, log);
    } else {
      var j :| j in it.node.kids && Reached(Item(it.At(), j), q, m, log);
      ReachedExtends(Item(it.At(), j), q, m, k, log);
    }
  }

  ghost predicate RecordsReach(work: seq<Item>, log: map<Path, Entry>) {
    forall p, n :: InRecord(log, p, n) <==> Attempted(n) && ReachedFrom(work, p, n, log)
  }

  ghost predicate DirsAllStamped(log: map<Path, Entry>) {
    forall p :: p in log && log[p].node.Dir? ==> log[p].outcome == Stamped
  }

  lemma {:induction false} ShownIsReached(work: seq<Item>, it: Item, p: Path, n: Node, log: map<Path, Entry>)
    requires RecordsReach(work, log) && DirsAllStamped(log)
    requires ReachedFrom(work, it.At(), it.node, log) && Shown(it, p, n)
    ensures ReachedFrom(work, p, n, log)
    decreases it.node
  {
    if !(p == it.At() && n == it.node) {
      var k :| k in it.node.kids && Shown(Item(it.At(), k), p, n);
      assert InRecord(log, it.At(), it.node);
      var w0 :| w0 in work && Reached(w0, it.At(), it.node, log);
      ReachedExtends(w0, it.At(), it.node, k, log);
      ShownIsReached(work, Item(it.At(), k), p, n, log);
    }
  }

  /** Without faults the record is the set of visible entries. */
  lemma RecordIsShown(c: Config, lib: Library, log: map<Path, Entry>, p: Path, n: Node)
    requires RecordsReach(Items(c.root, lib.kids), log) && DirsAllStamped(log)
    ensures InRecord(log, p, n) <==> Attempted(n) && ShownIn(c.root, lib, p, n)
  {
    var work := Items(c.root, lib.kids);
    if ReachedFrom(work, p, n, log) {
      var it :| it in work && Reached(it, p, n, log);
      ReachedIsShown(it, p, n, log);
      assert it == Item(c.root, it.node) && it.node in lib.kids;
    }
    if ShownIn(c.root, lib, p, n) {
      var k :| k in lib.kids && Shown(Item(c.root, k), p, n);
      var i :| 0 <= i < |lib.kids| && lib.kids[i] == k;
      assert work[i] == Item(c.root, k) && work[i] in work;
      assert Reached(work[i], work[i].At(), k, log);
      ShownIsReached(work, work[i], p, n, log);
    }
  }

  lemma {:induction false} ReachedName(it: Item, p: Path, n: Node, log: map<Path, Entry>)
    requires Reached(it, p, n, log)
    ensures p != [] && Base(p) == n.name
    decreases it.node
  {
    if !(p == it.At() && n == it.node) {
      var k :| k in it.node.kids && Reached(Item(it.At(), k), p, n, log);
      ReachedName(Item(it.At(), k), p, n, log);
    }
  }

  ghost predicate DirStampedAt(log: map<Path, Entry>, p: Path) {
    p in log && log[p].node.Dir? ==> log[p].outcome == Stamped
  }

  lemma StepStampsFolders(c: Config, world: World, w: State, it: Item, p: Path)
    requires Sound(c, world, w) && Injective(world, c.slug) && FaithfulItem(world, it) && it.dir in w.ids
    requires c.faults == {} && DirStampedAt(w.log, p)
    ensures DirStampedAt(Step(c, w, it).0.log, p)
  {
    if Attempted(it.node) {
      StepOutcome(c, world, w, it);
    }
  }

  lemma {:induction false} WalkStampsFolders(c: Config, world: World, w: State, work: seq<Item>, p: Path)
    requires Ready(c, w, work) && Sound(c, world, w) && Injective(world, c.slug) && FaithfulWork(world, work)
    requires c.faults == {} && DirStampedAt(w.log, p)
    ensures DirStampedAt(Drive(c, w, work).log, p)
    decreases Size(work)
  {
    if work != [] {
      SizeShrinks(work, Step(c, w, work[0]).1);
      assert work == [work[0]] + work[1..] && work[0] in work;
      NextKeepsReady(c, w, work);
      StepKeepsSound(c, world, w, work[0]);
      FaithfulNext(world, work[0], work[1..], Step(c, w, work[0]).1);
      StepStampsFolders(c, world, w, work[0], p);
      WalkStampsFolders(c, world, Next(c, w, work).0, Next(c, w, work).1, p);
    }
  }

  ghost predicate FitsAt(c: Config, log: map<Path, Entry>, p: Path) {
    p in log ==>
      && p != [] && Base(p) == log[p].node.name && p != c.root
      && (log[p].node.Dir? ==> log[p].outcome == Stamped)
      && (log[p].node.File? ==> (log[p].outcome == Stamped <==> Acceptable(log[p].node.file)))
  }

  ghost predicate EntryDecided(c: Config, t0: Tables, log: map<Path, Entry>, p: Path) {
    p in log ==>
      && p != c.root
      && (log[p].node.File? ==> log[p].outcome == BookOutcome(c, t0, p, log[p].node.file))
  }

  lemma WalkDecides(c: Config, t0: Tables, w: State, p: Path)
    requires Walked(c, t0, w)
    ensures EntryDecided(c, t0, w.log, p)
  {
    assert TrackedAt(c, t0, w, p);
  }

  lemma RecordFitsAt(c: Config, world: World, t0: Tables, log: map<Path, Entry>, work: seq<Item>, p: Path)
    requires c.faults == {} && Trusted(world, t0) && EntryDecided(c, t0, log, p)
    requires RecordsReach(work, log) && FaithfulRecord(world, log)
    requires p in log && log[p].node.Dir? ==> log[p].outcome == Stamped
    ensures FitsAt(c, log, p)
  {
    if p in log {
      var n := log[p].node;
      assert InRecord(log, p, n);
      var it :| it in work && Reached(it, p, n, log);
      ReachedName(it, p, n, log);
      if n.File? {
        FastPathAgrees(c, world, t0, p, n.file);
      }
    }
  }

  lemma RecordFitsAll(c: Config, world: World, w0: State, work: seq<Item>)
    requires Ready(c, w0, work) && Sound(c, world, w0) && Injective(world, c.slug) && FaithfulWork(world, work)
    requires c.faults == {} && w0.log == map[] && Walked(c, w0.t, Drive(c, w0, work))
    requires RecordsReach(work, Drive(c, w0, work).log) && FaithfulRecord(world, Drive(c, w0, work).log)
    ensures forall p :: FitsAt(c, Drive(c, w0, work).log, p)
  {
    var w := Drive(c, w0, work);
    forall p
      ensures FitsAt(c, w.log, p)
    {
      WalkStampsFolders(c, world, w0, work, p);
      WalkDecides(c, w0.t, w, p);
      RecordFitsAt(c, world, w0.t, w.log, work, p);
    }
  }

  lemma RecordFits(c: Config, world: World, t: Tables, lib: Library)
    requires Wellformed(t) && Trusted(world, t) && SlugsBy(world, c.slug, t) && Injective(world, c.slug)
    requires c.faults == {} && DistinctNames(lib.kids) && Faithful(world, c.root, lib.kids)
    ensures StartWalk(c, t, lib.info).Some?
    ensures var log := WalkLibrary(c, t, lib).log;
            RecordsReach(Items(c.root, lib.kids), log) && DirsAllStamped(log) && forall p :: FitsAt(c, log, p)
  {
    StartSound(c, world, t, lib.info);
    forall p, n
      ensures var log := WalkLibrary(c, t, lib).log;
              InRecord(log, p, n) <==> Attempted(n) && ReachedFrom(Items(c.root, lib.kids), p, n, log)
    {
      WalkRecordIsReach(c, t, lib, p, n);
    }
    WalkLibraryWalked(c, t, lib);
    StartReady(c, t, lib);
    var w0, w := StartWalk(c, t, lib.info).value, WalkLibrary(c, t, lib);
    var work := Items(c.root, lib.kids);
    assert FaithfulWork(world, work);
    RecordedFilesFaithful(c, world, w0, work);
    RecordFitsAll(c, world, w0, work);
    FitsStamped(c, w.log);
  }

  lemma FitsStamped(c: Config, log: map<Path, Entry>)
    requires forall p :: FitsAt(c, log, p)
    ensures DirsAllStamped(log)
  {
    forall p | p in log && log[p].node.Dir?
      ensures log[p].outcome == Stamped
    {
      assert FitsAt(c, log, p);
    }
  }

  /** Without faults the rows a scan keeps are those the tree shows. */
  lemma KeptIsShown(c: Config, lib: Library, log: map<Path, Entry>, p: Path)
    requires RecordsReach(Items(c.root, lib.kids), log) && DirsAllStamped(log) && FitsAt(c, log, p)
    ensures KeptFolder(c, log, p) <==> IsShownFolder(c.root, lib, p)
    ensures KeptBook(log, p) <==> IsShownBook(c.root, lib, p)
    ensures forall n :: Attempted(n) && ShownIn(c.root, lib, p, n) ==> p in log && log[p].node == n
  {
    forall n
      ensures InRecord(log, p, n) <==> Attempted(n) && ShownIn(c.root, lib, p, n)
    {
      RecordIsShown(c, lib, log, p, n);
    }
    if p in log {
      assert InRecord(log, p, log[p].node);
    }
    forall n | Attempted(n) && ShownIn(c.root, lib, p, n)
      ensures p in log && log[p].node == n
    {
      assert InRecord(log, p, n);
    }
  }

  lemma LeavesMirrorFolder(c: Config, lib: Library, log: map<Path, Entry>, t0: Tables, t: Tables, p: Path)
    requires RecordsReach(Items(c.root, lib.kids), log) && DirsAllStamped(log) && FitsAt(c, log, p)
    requires FolderAsScanned(c, log, lib, t0, t, p)
    ensures MirrorsFolderAt(c.root, c.libraryName, lib, t, p) <==> (p in t.folders <==> KeptFolder(c, log, p))
  {
    KeptIsShown(c, lib, log, p);
  }

  lemma LeavesMirrorBook(c: Config, lib: Library, log: map<Path, Entry>, t0: Tables, t: Tables, p: Path)
    requires RecordsReach(Items(c.root, lib.kids), log) && DirsAllStamped(log) && FitsAt(c, log, p)
    requires BookAsScanned(c, log, t0, t, p)
    ensures MirrorsBookAt(c.root, lib, t, p) <==> (p in t.books <==> KeptBook(log, p))
  {
    KeptIsShown(c, lib, log, p);
  }

  /** A row that the tree does not show and the prune cannot reach: it was last seen no earlier than
      the scan starts, and it hangs under a folder the tree shows or under none. */
  ghost predicate Lingers(root: Path, lib: Library, started: int, t: Tables, p: Path) {
    (p in t.folders && !IsShownFolder(root, lib, p) && t.folders[p].seenAt >= started &&
     (t.folders[p].parent.None? || (p != [] && IsShownFolder(root, lib, Parent(p))))) ||
    (p in t.books && !IsShownBook(root, lib, p) && t.books[p].seenAt >= started &&
     p != [] && IsShownFolder(root, lib, Parent(p)))
  }

  lemma LingersIsOutlives(c: Config, lib: Library, log: map<Path, Entry>, t: Tables, p: Path)
    requires RecordsReach(Items(c.root, lib.kids), log) && DirsAllStamped(log) && forall q :: FitsAt(c, log, q)
    ensures Lingers(c.root, lib, c.started, t, p) <==> Outlives(c, t, log, p)
  {
    assert FitsAt(c, log, p);
    KeptIsShown(c, lib, log, p);
    if p != [] {
      assert FitsAt(c, log, Parent(p));
      KeptIsShown(c, lib, log, Parent(p));
    }
  }

  /** A row last seen in the second `now` is one the tree shows. */
  ghost predicate ShownIfSeenNow(root: Path, lib: Library, now: int, t: Tables, p: Path) {
    (p in t.folders && t.folders[p].seenAt == now ==> IsShownFolder(root, lib, p)) &&
    (p in t.books && t.books[p].seenAt == now ==> IsShownBook(root, lib, p))
  }

  lemma ExactIsMirror(c: Config, world: World, t: Tables, lib: Library)
    requires Wellformed(t) && Trusted(world, t) && SlugsBy(world, c.slug, t) && Injective(world, c.slug)
    requires c.faults == {} && DistinctNames(lib.kids) && Faithful(world, c.root, lib.kids)
    ensures StartWalk(c, t, lib.info).Some?
    ensures var w := WalkLibrary(c, t, lib);
            var u := Sweep(w.t, c.started);
            Mirrors(c.root, c.libraryName, lib, u) <==> Exact(c, w.log, u)
  {
    RecordFits(c, world, t, lib);
    var log := WalkLibrary(c, t, lib).log;
    var u := Sweep(WalkLibrary(c, t, lib).t, c.started);
    forall p
      ensures MirrorsFolderAt(c.root, c.libraryName, lib, u, p) && MirrorsBookAt(c.root, lib, u, p) <==>
              ExactAt(c, log, u, p)
    {
      assert FitsAt(c, log, p);
      StampedLeaves(c, world, t, lib, p);
      LeavesMirrorFolder(c, lib, log, t, u, p);
      LeavesMirrorBook(c, lib, log, t, u, p);
    }
  }

  /** A fault-free scan leaves exactly the visible tree if and only if no row of the tables it starts
      from lingers. */
  lemma ScanMirrorsIff(c: Config, world: World, t: Tables, lib: Library)
    requires Wellformed(t) && Trusted(world, t) && SlugsBy(world, c.slug, t) && Injective(world, c.slug)
    requires c.faults == {} && DistinctNames(lib.kids) && Faithful(world, c.root, lib.kids)
    ensures StartWalk(c, t, lib.info).Some?
    ensures Mirrors(c.root, c.libraryName, lib, Sweep(WalkLibrary(c, t, lib).t, c.started)) <==>
            forall p :: !Lingers(c.root, lib, c.started, t, p)
  {
    ExactIsMirror(c, world, t, lib);
    PruneIsExactIff(c, t, lib);
    RecordFits(c, world, t, lib);
    forall p
      ensures Lingers(c.root, lib, c.started, t, p) <==> Outlives(c, t, WalkLibrary(c, t, lib).log, p)
    {
      LingersIsOutlives(c, lib, WalkLibrary(c, t, lib).log, t, p);
    }
  }

  /** While the clock does not go back, if and only if every row last seen in the second it starts is
      one the tree shows. */
  lemma ScanMirrorsInOrderIff(c: Config, world: World, t: Tables, lib: Library)
    requires Wellformed(t) && Trusted(world, t) && SlugsBy(world, c.slug, t) && Injective(world, c.slug)
    requires c.faults == {} && DistinctNames(lib.kids) && Faithful(world, c.root, lib.kids)
    requires SeenOrdered(t) && NoneNewer(t, c.started)
    ensures StartWalk(c, t, lib.info).Some?
    ensures Mirrors(c.root, c.libraryName, lib, Sweep(WalkLibrary(c, t, lib).t, c.started)) <==>
            forall p :: ShownIfSeenNow(c.root, lib, c.started, t, p)
  {
    ExactIsMirror(c, world, t, lib);
    SameSecondIff(c, t, lib);
    RecordFits(c, world, t, lib);
    forall p
      ensures ShownIfSeenNow(c.root, lib, c.started, t, p) <==>
              !SameSecondLeftover(c, t, WalkLibrary(c, t, lib).log, p)
    {
      assert FitsAt(c, WalkLibrary(c, t, lib).log, p);
      KeptIsShown(c, lib, WalkLibrary(c, t, lib).log, p);
    }
  }

  /** In particular if it starts later than anything was last seen. */
  lemma ScanMirrorsTree(c: Config, world: World, t: Tables, lib: Library)
    requires Wellformed(t) && Trusted(world, t) && SlugsBy(world, c.slug, t) && Injective(world, c.slug)
    requires AllOlder(t, c.started) && c.faults == {}
    requires DistinctNames(lib.kids) && Faithful(world, c.root, lib.kids)
    ensures StartWalk(c, t, lib.info).Some?
    ensures Mirrors(c.root, c.libraryName, lib, Sweep(WalkLibrary(c, t, lib).t, c.started))
  {
    ScanMirrorsIff(c, world, t, lib);
  }

  lemma TokensKeepMirror(root: Path, libraryName: Option<string>, lib: Library, t: Tables, t': Tables)
    requires Mirrors(root, libraryName, lib, t) && SameButTokens(t, t')
    ensures Mirrors(root, libraryName, lib, t')
  {
    forall p
      ensures MirrorsFolderAt(root, libraryName, lib, t', p) && MirrorsBookAt(root, lib, t', p)
    {
      assert MirrorsFolderAt(root, libraryName, lib, t, p) && MirrorsBookAt(root, lib, t, p);
      assert p in t.folders ==> SameButTokenAt(t, t', p);
    }
  }

  lemma {:induction false} ShownName(it: Item, p: Path, n: Node)
    requires Shown(it, p, n)
    ensures p != [] && Base(p) == n.name
    decreases it.node
  {
    if !(p == it.At() && n == it.node) {
      var k :| k in it.node.kids && Shown(Item(it.At(), k), p, n);
      ShownName(Item(it.At(), k), p, n);
    }
  }

  /** In a mirror every row but the root's is named after its own directory entry: a book by the
      part before the archive extension. No row belongs to a dotted entry. */
  lemma MirrorNames(root: Path, libraryName: Option<string>, lib: Library, t: Tables, p: Path)
    requires Mirrors(root, libraryName, lib, t)
    ensures p in t.folders && p != root ==>
              p != [] && t.folders[p].name == Base(p) && forall rest :: Base(p) != "." + rest
    ensures p in t.books ==>
              p != [] && (exists ext :: ArchiveName(Base(p), t.books[p].name, ext)) &&
              forall rest :: Base(p) != "." + rest
  {
    assert MirrorsFolderAt(root, libraryName, lib, t, p) && MirrorsBookAt(root, lib, t, p);
    if p in t.folders && p != root {
      var n :| VisibleDir(n) && ShownIn(root, lib, p, n);
      var k :| k in lib.kids && Shown(Item(root, k), p, n);
      ShownName(Item(root, k), p, n);
      VisibleDirIff(n);
    }
    if p in t.books {
      var n :| VisibleBook(n) && Acceptable(n.file) && ShownIn(root, lib, p, n);
      var k :| k in lib.kids && Shown(Item(root, k), p, n);
      ShownName(Item(root, k), p, n);
      VisibleBookIff(n);
      SupportedIff(n.name);
    }
  }
}
