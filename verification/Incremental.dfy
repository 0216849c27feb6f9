/** Rescanning an indexed library gives the index a first scan would give
    (src/scan.rs:346-520). */
module Incremental {
  import opened Wrappers
  import opened Catalog
  import opened Walk
  import opened Marking
  import opened Sweeping

  /** What hashing and opening the file at a path gives, as far as its size and
      modification time tell: unchanged size and time mean unchanged content; and
      the directories that ever occur, over which slugs are to be distinct. */
  datatype World = World(content: (Path, Stat) -> Content, dirs: iset<Path>)

  ghost predicate FaithfulFile(world: World, p: Path, f: FileInfo) {
    f.stat.Some? ==> f.content == world.content(p, f.stat.value)
  }

  /** Every file of the tree has the content the world gives it. */
  ghost predicate Faithful(world: World, dir: Path, ns: seq<Node>)
    decreases ns
  {
    dir in world.dirs &&
    forall n :: n in ns ==>
      (n.File? ==> FaithfulFile(world, dir + [n.name], n.file)) &&
      (n.Dir? ==> Faithful(world, dir + [n.name], n.kids))
  }

  ghost predicate FaithfulItem(world: World, it: Item) {
    (it.node.File? ==> FaithfulFile(world, it.At(), it.node.file)) &&
    (it.node.Dir? ==> Faithful(world, it.At(), it.node.kids))
  }

  ghost predicate FaithfulWork(world: World, work: seq<Item>) {
    forall it :: it in work ==> FaithfulItem(world, it)
  }

  /** A book row holds what the slow path gave for its recorded size and time. */
  ghost predicate TrustedRow(world: World, p: Path, b: Book) {
    && p != [] && 0 <= b.size <= MAX_ARCHIVE_BYTES && 0 <= b.pages
    && Inspect(world.content(p, Stat(b.size, b.mtime))) == Usable(b.hash, b.format, b.pages)
    && b.name == Stem(Base(p)) && b.sortKey == NatSort.Key(b.name)
  }

  ghost predicate Trusted(world: World, t: Tables) {
    forall p :: p in t.books ==> TrustedRow(world, p, t.books[p])
  }

  ghost predicate SlugsBy(world: World, slug: Path -> string, t: Tables) {
    forall p :: p in t.folders ==> p in world.dirs && t.folders[p].slug == slug(p)
  }

  ghost predicate Injective(world: World, slug: Path -> string) {
    forall p, q :: p in world.dirs && q in world.dirs && slug(p) == slug(q) ==> p == q
  }

  /** The fast path and the slow path decide alike. */
  lemma FastPathAgrees(c: Config, world: World, t: Tables, p: Path, f: FileInfo)
    requires Trusted(world, t) && FaithfulFile(world, p, f)
    ensures BookOutcome(c, t, p, f) == BookOutcome(c, EMPTY, p, f)
  {
    if f.stat.Some? && Unchanged(t, p, f.stat.value) {
      assert TrustedRow(world, p, t.books[p]);
      assert Stat(t.books[p].size, t.books[p].mtime) == f.stat.value;
    }
  }

  /** ... and leave the same row, but for the id and the time of addition. */
  lemma FastPathRow(c: Config, world: World, t: Tables, p: Path, folder: int, f: FileInfo, id: int)
    requires Trusted(world, t) && FaithfulFile(world, p, f) && p != [] && BookOutcome(c, t, p, f) == Stamped
    ensures BookOutcome(c, EMPTY, p, f) == Stamped
    ensures var b := BookAfter(c, t, p, folder, f, id);
            b == BookAfter(c, EMPTY, p, folder, f, id).(id := b.id, addedAt := b.addedAt) &&
            TrustedRow(world, p, b) &&
            b.addedAt == if p in t.books then t.books[p].addedAt else c.started
  {
    FastPathAgrees(c, world, t, p, f);
    if Unchanged(t, p, f.stat.value) {
      assert TrustedRow(world, p, t.books[p]);
      assert Stat(t.books[p].size, t.books[p].mtime) == f.stat.value;
    }
  }

  /** The content of a file whose size and time are the recorded ones is not looked at. */
  lemma FastPathIgnoresContent(c: Config, t: Tables, p: Path, folder: int, st: Stat, x: Content, y: Content)
    requires p != [] && p in t.books && t.books[p].mtime == st.mtime && t.books[p].size == st.size
    ensures UpsertBook(c, t, p, folder, FileInfo(Some(st), x)) == UpsertBook(c, t, p, folder, FileInfo(Some(st), y))
  {
  }

  lemma NoSlugConflict(world: World, slug: Path -> string, t: Tables, p: Path)
    requires Injective(world, slug) && SlugsBy(world, slug, t) && p in world.dirs
    ensures !SlugTaken(t, p, slug(p))
  {
  }

  /** With injective slugs, a folder upsert fails only through its own fault. */
  lemma FolderOutcome(c: Config, world: World, t: Tables, p: Path, parent: Option<int>, override: Option<string>,
                      info: DirInfo)
    requires Wellformed(t) && Injective(world, c.slug) && SlugsBy(world, c.slug, t) && p in world.dirs
    requires parent.Some? ==> p != [] && Parent(p) in t.folders && t.folders[Parent(p)].id == parent.value
    ensures var (t', id) := UpsertFolder(c, t, p, parent, override, info);
            (id.None? <==> p in c.faults) && SlugsBy(world, c.slug, t') && t'.books == t.books
  {
    UpsertFolderKeepsTree(c, t, p, parent, override, info);
    NoSlugConflict(world, c.slug, t, p);
  }

  lemma BookKeepsTrust(c: Config, world: World, t: Tables, p: Path, folder: int, f: FileInfo)
    requires Wellformed(t) && Trusted(world, t) && FaithfulFile(world, p, f)
    requires p != [] && Parent(p) in t.folders && t.folders[Parent(p)].id == folder
    ensures var (t', o) := UpsertBook(c, t, p, folder, f);
            Trusted(world, t') && t'.folders == t.folders && o == BookOutcome(c, t, p, f)
  {
    UpsertBookKeepsTree(c, t, p, folder, f);
    var (t', o) := UpsertBook(c, t, p, folder, f);
    if o == Stamped {
      FastPathRow(c, world, t, p, folder, f, t'.books[p].id);
    }
  }

  ghost predicate Sound(c: Config, world: World, w: State) {
    Wellformed(w.t) && IdsCurrent(w) && Trusted(world, w.t) && SlugsBy(world, c.slug, w.t)
  }

  lemma StepKeepsSound(c: Config, world: World, w: State, it: Item)
    requires Sound(c, world, w) && Injective(world, c.slug) && FaithfulItem(world, it)
    ensures Sound(c, world, Step(c, w, it).0)
  {
    StepKeepsTree(c, w, it);
    assert Parent(it.At()) == it.dir;
    if VisibleDir(it.node) && it.dir in w.ids {
      FolderOutcome(c, world, w.t, it.At(), Some(w.ids[it.dir]), None, it.node.info);
    } else if VisibleBook(it.node) && it.dir in w.ids {
      BookKeepsTrust(c, world, w.t, it.At(), w.ids[it.dir], it.node.file);
    }
  }

  /** The outcome of a turn does not depend on what earlier scans left. */
  lemma StepOutcome(c: Config, world: World, w: State, it: Item)
    requires Sound(c, world, w) && Injective(world, c.slug) && FaithfulItem(world, it) && it.dir in w.ids
    requires Attempted(it.node)
    ensures var w' := Step(c, w, it).0;
            it.At() in w'.log &&
            w'.log[it.At()].outcome ==
              if it.node.Dir? then (if it.At() in c.faults then Failed else Stamped)
              else BookOutcome(c, EMPTY, it.At(), it.node.file)
  {
    assert Parent(it.At()) == it.dir;
    if VisibleDir(it.node) {
      FolderOutcome(c, world, w.t, it.At(), Some(w.ids[it.dir]), None, it.node.info);
    } else {
      BookKeepsTrust(c, world, w.t, it.At(), w.ids[it.dir], it.node.file);
      FastPathAgrees(c, world, w.t, it.At(), it.node.file);
    }
  }

  lemma FaithfulNext(world: World, it: Item, rest: seq<Item>, descend: bool)
    requires FaithfulWork(world, [it] + rest) && FaithfulItem(world, it)
    ensures FaithfulWork(world, (if descend then Below(it) else []) + rest)
  {
    var work := (if descend then Below(it) else []) + rest;
    forall k | k in work
      ensures FaithfulItem(world, k)
    {
      if k in rest {
        assert k in [it] + rest;
      } else {
        assert k.node in it.node.kids && k.dir == it.At();
      }
    }
  }

  lemma StepsAgree(c: Config, world: World, a: State, b: State, work: seq<Item>)
    requires work != [] && Ready(c, a, work) && Ready(c, b, work) && a.log == b.log
    requires Sound(c, world, a) && Sound(c, world, b) && Injective(world, c.slug) && FaithfulItem(world, work[0])
    ensures Next(c, a, work).1 == Next(c, b, work).1 && Next(c, a, work).0.log == Next(c, b, work).0.log
  {
    var it := work[0];
    NextKeepsReady(c, a, work);
    NextKeepsReady(c, b, work);
    if Attempted(it.node) {
      StepOutcome(c, world, a, it);
      StepOutcome(c, world, b, it);
      assert Step(c, a, it).0.log[it.At()] == Step(c, b, it).0.log[it.At()];
    }
  }

  /** Two walks of one tree, from whatever tables, record the same outcomes. */
  lemma {:induction false} WalksAgree(c: Config, world: World, a: State, b: State, work: seq<Item>)
    requires Ready(c, a, work) && Ready(c, b, work) && a.log == b.log
    requires Sound(c, world, a) && Sound(c, world, b) && Injective(world, c.slug) && FaithfulWork(world, work)
    ensures Drive(c, a, work).log == Drive(c, b, work).log
    ensures Sound(c, world, Drive(c, a, work))
    decreases Size(work)
  {
    if work != [] {
      SizeShrinks(work, Step(c, a, work[0]).1);
      SizeShrinks(work, Step(c, b, work[0]).1);
      assert work == [work[0]] + work[1..] && work[0] in work;
      StepsAgree(c, world, a, b, work);
      NextKeepsReady(c, a, work);
      NextKeepsReady(c, b, work);
      StepKeepsSound(c, world, a, work[0]);
      StepKeepsSound(c, world, b, work[0]);
      FaithfulNext(world, work[0], work[1..], Step(c, a, work[0]).1);
      WalksAgree(c, world, Next(c, a, work).0, Next(c, b, work).0, Next(c, a, work).1);
    }
  }

  // ---------------------------------------------------------------------
  // The rows that two scans leave
  // ---------------------------------------------------------------------

  /** Equal but for the ids (the parent folder is the same by `Links`) and the token. */
  ghost predicate SameFolder(f: Folder, g: Folder) {
    f == g.(id := f.id, parent := f.parent, coverVersion := f.coverVersion) &&
    (f.parent.Some? <==> g.parent.Some?)
  }

  /** Equal but for the ids and the time of addition. */
  ghost predicate SameBook(f: Book, g: Book) {
    f == g.(id := f.id, folder := f.folder, addedAt := f.addedAt)
  }

  ghost predicate SameIndexAt(t: Tables, u: Tables, p: Path) {
    (p in t.folders <==> p in u.folders) && (p in t.books <==> p in u.books) &&
    (p in t.folders && p in u.folders ==> SameFolder(t.folders[p], u.folders[p])) &&
    (p in t.books && p in u.books ==> SameBook(t.books[p], u.books[p]))
  }

  ghost predicate SameIndex(t: Tables, u: Tables) {
    forall p :: SameIndexAt(t, u, p)
  }

  lemma StartSound(c: Config, world: World, t: Tables, info: DirInfo)
    requires Wellformed(t) && Trusted(world, t) && SlugsBy(world, c.slug, t) && Injective(world, c.slug)
    requires c.root in world.dirs
    ensures StartWalk(c, t, info).Some? <==> c.root !in c.faults
    ensures StartWalk(c, t, info).Some? ==> Sound(c, world, StartWalk(c, t, info).value)
  {
    UpsertFolderKeepsTree(c, t, c.root, None, c.libraryName, info);
    FolderOutcome(c, world, t, c.root, None, c.libraryName, info);
  }

  /** The tables at the end of a walk, seen from one stamped path. */
  ghost predicate FolderAsScanned(c: Config, log: map<Path, Entry>, lib: Library, t0: Tables, t: Tables, p: Path) {
    KeptFolder(c, log, p) ==>
      && p in t.folders
      && (p in t0.folders ==> t.folders[p].id == t0.folders[p].id)
      && (t.folders[p].parent.None? <==> p == c.root)
      && t.folders[p] == FolderRow(c, p, t.folders[p].id, t.folders[p].parent,
                                   if p == c.root then c.libraryName else None,
                                   if p == c.root then lib.info else log[p].node.info,
                                   t.folders[p].coverVersion)
  }

  ghost predicate BookAsScanned(c: Config, log: map<Path, Entry>, t0: Tables, t: Tables, p: Path) {
    KeptBook(log, p) ==>
      && p in t.books && p != [] && BookOutcome(c, EMPTY, p, log[p].node.file) == Stamped
      && (p in t0.books ==> t.books[p].id == t0.books[p].id)
      && t.books[p].addedAt == (if p in t0.books then t0.books[p].addedAt else c.started)
      && SameBook(t.books[p], BookAfter(c, EMPTY, p, 0, log[p].node.file, 0))
  }

  ghost predicate FaithfulRecord(world: World, log: map<Path, Entry>) {
    forall p :: p in log && log[p].node.File? ==> FaithfulFile(world, p, log[p].node.file)
  }

  lemma FaithfulStep(world: World, w: State, w': State, it: Item, descend: bool)
    requires FaithfulRecord(world, w.log) && FaithfulItem(world, it) && Recorded(w, w', it, descend)
    ensures FaithfulRecord(world, w'.log)
  {
    forall p | p in w'.log && w'.log[p].node.File?
      ensures FaithfulFile(world, p, w'.log[p].node.file)
    {
      assert p in w.log || p == it.At();
    }
  }

  /** The files a walk has recorded are files of the tree. */
  lemma {:induction false} RecordedFilesFaithful(c: Config, world: World, w: State, work: seq<Item>)
    requires Ready(c, w, work) && FaithfulWork(world, work) && FaithfulRecord(world, w.log)
    ensures FaithfulRecord(world, Drive(c, w, work).log)
    decreases Size(work)
  {
    if work != [] {
      SizeShrinks(work, Step(c, w, work[0]).1);
      assert work == [work[0]] + work[1..] && work[0] in work;
      NextKeepsReady(c, w, work);
      FaithfulStep(world, w, Next(c, w, work).0, work[0], Step(c, w, work[0]).1);
      FaithfulNext(world, work[0], work[1..], Step(c, w, work[0]).1);
      RecordedFilesFaithful(c, world, Next(c, w, work).0, Next(c, w, work).1);
    }
  }

  lemma FolderScanned(c: Config, lib: Library, t: Tables, t0: Tables, w: State, p: Path)
    requires Walked(c, t0, w)
    requires FolderWritten(c, t, t0, c.root, None, c.libraryName, lib.info, Some(t0.folders[c.root].id))
    ensures FolderAsScanned(c, w.log, lib, t, w.t, p)
  {
    assert TrackedAt(c, t0, w, p);
    KeptRows(c, t0, w, p);
  }

  lemma BookScanned(c: Config, world: World, t0: Tables, w: State, p: Path)
    requires Walked(c, t0, w) && Trusted(world, t0)
    requires FaithfulRecord(world, w.log)
    ensures BookAsScanned(c, w.log, t0, w.t, p)
  {
    assert TrackedAt(c, t0, w, p);
    if KeptBook(w.log, p) {
      var f := w.log[p].node.file;
      FastPathRow(c, world, t0, p, w.ids[Parent(p)], f, w.t.books[p].id);
    }
  }

  lemma WalkLeavesFolder(c: Config, t: Tables, lib: Library, p: Path)
    requires Wellformed(t) && StartWalk(c, t, lib.info).Some? && DistinctNames(lib.kids)
    ensures var w := WalkLibrary(c, t, lib); FolderAsScanned(c, w.log, lib, t, w.t, p)
  {
    StartReady(c, t, lib);
    WalkLibraryWalked(c, t, lib);
    FolderScanned(c, lib, t, StartWalk(c, t, lib.info).value.t, WalkLibrary(c, t, lib), p);
  }

  lemma WalkLeavesBook(c: Config, world: World, t: Tables, lib: Library, p: Path)
    requires Wellformed(t) && Trusted(world, t) && StartWalk(c, t, lib.info).Some?
    requires DistinctNames(lib.kids) && Faithful(world, c.root, lib.kids)
    ensures var w := WalkLibrary(c, t, lib); BookAsScanned(c, w.log, t, w.t, p)
  {
    var w0, work := StartWalk(c, t, lib.info).value, Items(c.root, lib.kids);
    StartReady(c, t, lib);
    WalkLibraryWalked(c, t, lib);
    assert FaithfulWork(world, work);
    RecordedFilesFaithful(c, world, w0, work);
    BookScanned(c, world, w0.t, WalkLibrary(c, t, lib), p);
  }

  lemma WalkLeaves(c: Config, world: World, t: Tables, lib: Library, p: Path)
    requires Wellformed(t) && Trusted(world, t) && StartWalk(c, t, lib.info).Some?
    requires DistinctNames(lib.kids) && Faithful(world, c.root, lib.kids)
    ensures var w := WalkLibrary(c, t, lib);
            FolderAsScanned(c, w.log, lib, t, w.t, p) && BookAsScanned(c, w.log, t, w.t, p)
  {
    WalkLeavesFolder(c, t, lib, p);
    WalkLeavesBook(c, world, t, lib, p);
  }

  lemma SweepLeaves(c: Config, t0: Tables, lib: Library, t: Tables, w: State, p: Path)
    requires Walked(c, t0, w)
    requires FolderAsScanned(c, w.log, lib, t, w.t, p) && BookAsScanned(c, w.log, t, w.t, p)
    ensures var u := Sweep(w.t, c.started);
            FolderAsScanned(c, w.log, lib, t, u, p) && BookAsScanned(c, w.log, t, u, p)
  {
    SweepSparesStamped(c, t0, w, p);
  }

  /** What one scan leaves at a stamped path, in terms of its record alone. */
  lemma StampedLeaves(c: Config, world: World, t: Tables, lib: Library, p: Path)
    requires Wellformed(t) && Trusted(world, t) && SlugsBy(world, c.slug, t) && Injective(world, c.slug)
    requires c.root !in c.faults && DistinctNames(lib.kids) && Faithful(world, c.root, lib.kids)
    ensures StartWalk(c, t, lib.info).Some?
    ensures var w := WalkLibrary(c, t, lib);
            var u := Sweep(w.t, c.started);
            FolderAsScanned(c, w.log, lib, t, u, p) && BookAsScanned(c, w.log, t, u, p)
  {
    StartSound(c, world, t, lib.info);
    WalkLibraryWalked(c, t, lib);
    WalkLeaves(c, world, t, lib, p);
    SweepLeaves(c, StartWalk(c, t, lib.info).value.t, lib, t, WalkLibrary(c, t, lib), p);
  }

  /** Everything one scan leaves at a path, in terms of its record alone. */
  lemma ScanLeaves(c: Config, world: World, t: Tables, lib: Library, p: Path)
    requires Wellformed(t) && Trusted(world, t) && SlugsBy(world, c.slug, t) && Injective(world, c.slug)
    requires AllOlder(t, c.started) && c.root !in c.faults
    requires DistinctNames(lib.kids) && Faithful(world, c.root, lib.kids)
    ensures StartWalk(c, t, lib.info).Some?
    ensures var w := WalkLibrary(c, t, lib);
            var u := Sweep(w.t, c.started);
            ExactAt(c, w.log, u, p) &&
            FolderAsScanned(c, w.log, lib, t, u, p) && BookAsScanned(c, w.log, t, u, p)
  {
    StampedLeaves(c, world, t, lib, p);
    MarkAndSweepIsExact(c, t, lib);
  }

  lemma RecordsAgree(c: Config, world: World, t: Tables, u: Tables, lib: Library)
    requires Wellformed(t) && Trusted(world, t) && SlugsBy(world, c.slug, t)
    requires Wellformed(u) && Trusted(world, u) && SlugsBy(world, c.slug, u)
    requires Injective(world, c.slug) && c.root !in c.faults
    requires DistinctNames(lib.kids) && Faithful(world, c.root, lib.kids)
    ensures StartWalk(c, t, lib.info).Some? && StartWalk(c, u, lib.info).Some?
    ensures WalkLibrary(c, t, lib).log == WalkLibrary(c, u, lib).log
  {
    StartSound(c, world, t, lib.info);
    StartSound(c, world, u, lib.info);
    StartReady(c, t, lib);
    StartReady(c, u, lib);
    var work := Items(c.root, lib.kids);
    assert FaithfulWork(world, work);
    WalksAgree(c, world, StartWalk(c, t, lib.info).value, StartWalk(c, u, lib.info).value, work);
  }

  lemma ScannedAlike(c: Config, log: map<Path, Entry>, lib: Library, t: Tables, u: Tables, t0: Tables, u0: Tables,
                     p: Path)
    requires ExactAt(c, log, t, p) && FolderAsScanned(c, log, lib, t0, t, p) && BookAsScanned(c, log, t0, t, p)
    requires ExactAt(c, log, u, p) && FolderAsScanned(c, log, lib, u0, u, p) && BookAsScanned(c, log, u0, u, p)
    ensures SameIndexAt(t, u, p)
  {
  }

  /** From whatever sound tables earlier scans left, one scan leaves the index that the
      same scan of an empty database leaves; rows that were there keep their ids, and books
      the time they were added, which for a new book is the start of the scan. */
  lemma IncrementalEqualsFresh(c: Config, world: World, t: Tables, lib: Library)
    requires Wellformed(t) && Trusted(world, t) && SlugsBy(world, c.slug, t) && Injective(world, c.slug)
    requires AllOlder(t, c.started) && c.root !in c.faults
    requires DistinctNames(lib.kids) && Faithful(world, c.root, lib.kids)
    ensures StartWalk(c, t, lib.info).Some? && StartWalk(c, EMPTY, lib.info).Some?
    ensures var a := Sweep(WalkLibrary(c, t, lib).t, c.started);
            var b := Sweep(WalkLibrary(c, EMPTY, lib).t, c.started);
            SameIndex(a, b) &&
            (forall p :: p in t.folders && p in a.folders ==> a.folders[p].id == t.folders[p].id) &&
            (forall p :: p in t.books && p in a.books ==> a.books[p].id == t.books[p].id) &&
            (forall p :: p in a.books ==>
               a.books[p].addedAt == if p in t.books then t.books[p].addedAt else c.started)
  {
    RecordsAgree(c, world, t, EMPTY, lib);
    var log := WalkLibrary(c, t, lib).log;
    var a := Sweep(WalkLibrary(c, t, lib).t, c.started);
    var b := Sweep(WalkLibrary(c, EMPTY, lib).t, c.started);
    forall p
      ensures SameIndexAt(a, b, p)
      ensures p in t.folders && p in a.folders ==> a.folders[p].id == t.folders[p].id
      ensures p in t.books && p in a.books ==> a.books[p].id == t.books[p].id
      ensures p in a.books ==> a.books[p].addedAt == if p in t.books then t.books[p].addedAt else c.started
    {
      ScanLeaves(c, world, t, lib, p);
      ScanLeaves(c, world, EMPTY, lib, p);
      ScannedAlike(c, log, lib, a, b, t, EMPTY, p);
    }
  }
}
