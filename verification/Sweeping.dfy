/** The start of a scan, the prune that ends it, and what is left (src/scan.rs:83-208). */
module Sweeping {
  import opened Wrappers
  import opened Catalog
  import opened Walk
  import opened Marking

  /** The library root: its own directory data and its entries in walk order. */
  datatype Library = Library(info: DirInfo, kids: seq<Node>)

  /** The root upsert; its failure aborts the scan. */
  function StartWalk(c: Config, t: Tables, info: DirInfo): Option<State> {
    var (t', id) := UpsertFolder(c, t, c.root, None, c.libraryName, info);
    if id.None? then None else Some(State(t', map[c.root := id.value], map[]))
  }

  function Sweep(t: Tables, started: int): Tables {
    PruneFolders(PruneBooks(t, started), started)
  }

  function WalkLibrary(c: Config, t: Tables, lib: Library): State
    requires StartWalk(c, t, lib.info).Some?
  {
    Drive(c, StartWalk(c, t, lib.info).value, Items(c.root, lib.kids))
  }

  lemma StartReady(c: Config, t: Tables, lib: Library)
    requires Wellformed(t) && DistinctNames(lib.kids) && StartWalk(c, t, lib.info).Some?
    ensures var w := StartWalk(c, t, lib.info).value;
            Ready(c, w, Items(c.root, lib.kids)) && Tracked(c, w.t, w) &&
            FolderWritten(c, t, w.t, c.root, None, c.libraryName, lib.info, Some(w.ids[c.root]))
  {
    var w := StartWalk(c, t, lib.info).value;
    var work := Items(c.root, lib.kids);
    UpsertFolderKeepsTree(c, t, c.root, None, c.libraryName, lib.info);
    forall i, j | 0 <= i < j < |work|
      ensures Apart(work[i].At(), work[j].At())
    {
      SiblingsApart(c.root, lib.kids[i].name, lib.kids[j].name);
    }
    forall it | it in work
      ensures it.dir == c.root && it.node in lib.kids
    {
    }
  }

  /** The folders and books a walk has stamped. */
  ghost predicate KeptFolder(c: Config, log: map<Path, Entry>, p: Path) {
    p == c.root || IsStampedDir(log, p)
  }

  ghost predicate KeptBook(log: map<Path, Entry>, p: Path) {
    IsStamped(log, p) && log[p].node.File?
  }

  /** The tables at the end of a walk: a ready state that tracks its start. */
  ghost predicate Walked(c: Config, t0: Tables, w: State) {
    && Ready(c, w, []) && Tracked(c, t0, w)
    && c.root in t0.folders && t0.folders[c.root].seenAt == c.started && t0.folders[c.root].parent.None?
  }

  lemma WalkLibraryWalked(c: Config, t: Tables, lib: Library)
    requires Wellformed(t) && DistinctNames(lib.kids) && StartWalk(c, t, lib.info).Some?
    ensures Walked(c, StartWalk(c, t, lib.info).value.t, WalkLibrary(c, t, lib))
  {
    var w := StartWalk(c, t, lib.info).value;
    StartReady(c, t, lib);
    EndsReady(c, w, Items(c.root, lib.kids));
    DriveTracks(c, w.t, w, Items(c.root, lib.kids));
  }

  /** Stamped rows carry this scan's time, and sit in stamped folders up to the root. */
  lemma KeptRows(c: Config, t0: Tables, w: State, p: Path)
    requires Walked(c, t0, w)
    ensures KeptFolder(c, w.log, p) ==>
              p in w.t.folders && w.t.folders[p].seenAt == c.started &&
              (w.t.folders[p].parent.None? <==> p == c.root) &&
              (p != c.root ==> p != [] && KeptFolder(c, w.log, Parent(p)))
    ensures KeptBook(w.log, p) ==>
              p in w.t.books && w.t.books[p].seenAt == c.started &&
              p != [] && KeptFolder(c, w.log, Parent(p))
  {
    assert TrackedAt(c, t0, w, p);
    if p in w.log {
      assert p != [] && Parent(p) in w.ids;
    }
  }

  ghost predicate KeptFolderRow(c: Config, w: State, t': Tables, p: Path) {
    p in w.t.folders && p in t'.folders && t'.folders[p] == w.t.folders[p]
  }

  ghost predicate KeptBookRow(w: State, t': Tables, p: Path) {
    p in w.t.books && p in t'.books && t'.books[p] == w.t.books[p]
  }

  /** A child row of an unstamped folder is unstamped: the unstamped rows are closed. */
  lemma UnstampedClosed(c: Config, t0: Tables, w: State)
    requires Walked(c, t0, w)
    ensures var fs := PruneBooks(w.t, c.started).folders;
            Closed(fs, set p | p in fs && !KeptFolder(c, w.log, p))
  {
    var fs := w.t.folders;
    var loose := set p | p in fs && !KeptFolder(c, w.log, p);
    forall p | p in fs && IsChildOf(fs, p, loose)
      ensures p in loose
    {
      var q :| q in loose && q in fs && fs[q].id == fs[p].parent.value;
      assert FolderLink(w.t, p);
      assert q == Parent(p);
      KeptRows(c, t0, w, p);
    }
  }

  /** Whatever else is in the tables, the cascade never reaches a stamped row. */
  lemma SweepSparesStamped(c: Config, t0: Tables, w: State, p: Path)
    requires Walked(c, t0, w)
    ensures KeptFolder(c, w.log, p) ==> KeptFolderRow(c, w, Sweep(w.t, c.started), p)
    ensures KeptBook(w.log, p) ==> KeptBookRow(w, Sweep(w.t, c.started), p)
  {
    var t1 := PruneBooks(w.t, c.started);
    var stale := StaleFolders(t1, c.started);
    var loose := set q | q in t1.folders && !KeptFolder(c, w.log, q);
    UnstampedClosed(c, t0, w);
    forall q | q in stale
      ensures q in loose
    {
      KeptRows(c, t0, w, q);
    }
    CascadeIsLeastClosure(t1.folders, stale, loose);
    KeptRows(c, t0, w, p);
    if KeptBook(w.log, p) {
      assert BookLink(w.t, p);
    }
  }

  ghost predicate AllOlder(t: Tables, now: int) {
    (forall p :: p in t.folders ==> t.folders[p].seenAt < now) &&
    (forall p :: p in t.books ==> t.books[p].seenAt < now)
  }

  ghost predicate ExactAt(c: Config, log: map<Path, Entry>, t: Tables, p: Path) {
    (p in t.folders <==> KeptFolder(c, log, p)) && (p in t.books <==> KeptBook(log, p))
  }

  /** The index is exact: precisely the stamped rows are left. */
  ghost predicate Exact(c: Config, log: map<Path, Entry>, t: Tables) {
    forall p :: ExactAt(c, log, t, p)
  }

  /** The rows the walk did not stamp. */
  ghost predicate LeftoversOlder(c: Config, w: State) {
    (forall p :: p in w.t.folders && !KeptFolder(c, w.log, p) ==> w.t.folders[p].seenAt < c.started) &&
    (forall p :: p in w.t.books && !KeptBook(w.log, p) ==> w.t.books[p].seenAt < c.started)
  }

  lemma SweepExactIfOlder(c: Config, t0: Tables, w: State)
    requires Walked(c, t0, w) && LeftoversOlder(c, w)
    ensures Exact(c, w.log, Sweep(w.t, c.started))
  {
    var t1 := PruneBooks(w.t, c.started);
    CascadeIsLeastClosure(t1.folders, StaleFolders(t1, c.started), {});
    forall p
      ensures ExactAt(c, w.log, Sweep(w.t, c.started), p)
    {
      SweepSparesStamped(c, t0, w, p);
      assert p in t1.folders && !KeptFolder(c, w.log, p) ==> p in StaleFolders(t1, c.started);
    }
  }

  lemma LeftoversAreOld(c: Config, t: Tables, lib: Library)
    requires Wellformed(t) && DistinctNames(lib.kids) && StartWalk(c, t, lib.info).Some?
    requires AllOlder(t, c.started)
    ensures LeftoversOlder(c, WalkLibrary(c, t, lib))
  {
    var w0, w := StartWalk(c, t, lib.info).value, WalkLibrary(c, t, lib);
    StartReady(c, t, lib);
    WalkLibraryWalked(c, t, lib);
    forall p | p in w.t.folders && !KeptFolder(c, w.log, p)
      ensures w.t.folders[p].seenAt < c.started
    {
      assert TrackedAt(c, w0.t, w, p);
      assert p in t.folders && w.t.folders[p] == t.folders[p];
    }
    forall p | p in w.t.books && !KeptBook(w.log, p)
      ensures w.t.books[p].seenAt < c.started
    {
      assert TrackedAt(c, w0.t, w, p);
      assert p in t.books && w.t.books[p] == t.books[p];
    }
  }

  /** An entry has a record exactly when it is visible and supported and every folder above it
      is visible and stamped. */
  lemma WalkRecordIsReach(c: Config, t: Tables, lib: Library, p: Path, n: Node)
    requires Wellformed(t) && DistinctNames(lib.kids) && StartWalk(c, t, lib.info).Some?
    ensures var log := WalkLibrary(c, t, lib).log;
            InRecord(log, p, n) <==> Attempted(n) && ReachedFrom(Items(c.root, lib.kids), p, n, log)
  {
    StartReady(c, t, lib);
    RecordIsReach(c, StartWalk(c, t, lib.info).value, Items(c.root, lib.kids), p, n);
  }

  /** Mark and sweep is exact under cascade, whichever upserts failed: after the
      prune the folders are the root and the stamped folders, the books the stamped
      books, and an entry has a record exactly when it is visible and supported and
      every folder above it is visible and stamped. */
  lemma MarkAndSweepIsExact(c: Config, t: Tables, lib: Library)
    requires Wellformed(t) && DistinctNames(lib.kids) && StartWalk(c, t, lib.info).Some?
    requires AllOlder(t, c.started)
    ensures var w := WalkLibrary(c, t, lib);
            Exact(c, w.log, Sweep(w.t, c.started)) &&
            (forall p, n :: InRecord(w.log, p, n) <==>
               Attempted(n) && ReachedFrom(Items(c.root, lib.kids), p, n, w.log))
  {
    var w0, w := StartWalk(c, t, lib.info).value, WalkLibrary(c, t, lib);
    WalkLibraryWalked(c, t, lib);
    LeftoversAreOld(c, t, lib);
    SweepExactIfOlder(c, w0.t, w);
    forall p, n
      ensures InRecord(w.log, p, n) <==> Attempted(n) && ReachedFrom(Items(c.root, lib.kids), p, n, w.log)
    {
      WalkRecordIsReach(c, t, lib, p, n);
    }
  }

  // ---------------------------------------------------------------------
  // Rows before and after a walk
  // ---------------------------------------------------------------------

  /** After a walk a row either carries the scan's time or is the row it was before. */
  lemma StampedOrSame(c: Config, t: Tables, lib: Library, p: Path)
    requires Wellformed(t) && DistinctNames(lib.kids) && StartWalk(c, t, lib.info).Some?
    ensures var w := WalkLibrary(c, t, lib);
            (if KeptFolder(c, w.log, p)
             then p in w.t.folders && w.t.folders[p].seenAt == c.started &&
                  (p != c.root ==> p != [] && KeptFolder(c, w.log, Parent(p)))
             else SameAt(t.folders, w.t.folders, p)) &&
            (if KeptBook(w.log, p)
             then p in w.t.books && w.t.books[p].seenAt == c.started && p != [] && KeptFolder(c, w.log, Parent(p))
             else SameAt(t.books, w.t.books, p))
  {
    var w0, w := StartWalk(c, t, lib.info).value, WalkLibrary(c, t, lib);
    StartReady(c, t, lib);
    WalkLibraryWalked(c, t, lib);
    assert TrackedAt(c, w0.t, w, p);
    KeptRows(c, w0.t, w, p);
  }

  // ---------------------------------------------------------------------
  // Exactly when the prune is exact
  // ---------------------------------------------------------------------

  /** A row that the scan left unstamped and the prune cannot reach: it was last seen no earlier
      than the scan started, and it hangs under a kept folder or under none. */
  ghost predicate Outlives(c: Config, t: Tables, log: map<Path, Entry>, p: Path) {
    (p in t.folders && !KeptFolder(c, log, p) && t.folders[p].seenAt >= c.started &&
     (t.folders[p].parent.None? || (p != [] && KeptFolder(c, log, Parent(p))))) ||
    (p in t.books && !KeptBook(log, p) && t.books[p].seenAt >= c.started && p != [] && KeptFolder(c, log, Parent(p)))
  }

  /** The folders the second delete removes. */
  function Gone(t: Tables, started: int): set<Path> {
    Cascade(t.folders, StaleFolders(t, started))
  }

  lemma SweepByGone(t: Tables, started: int, p: Path)
    requires Wellformed(t)
    ensures p in Sweep(t, started).folders <==> p in t.folders && p !in Gone(t, started)
    ensures p in Sweep(t, started).books <==>
            p in t.books && t.books[p].seenAt >= started && Parent(p) !in Gone(t, started)
  {
    var t1 := PruneBooks(t, started);
    assert StaleFolders(t1, started) == StaleFolders(t, started);
    if p in t.books {
      assert BookLink(t, p);
    }
  }

  lemma OutlivingFolderStays(c: Config, t0: Tables, w: State, p: Path)
    requires Walked(c, t0, w) && p in w.t.folders && !KeptFolder(c, w.log, p) && Outlives(c, w.t, w.log, p)
    requires w.t.folders[p].seenAt >= c.started
    requires w.t.folders[p].parent.None? || (p != [] && KeptFolder(c, w.log, Parent(p)))
    ensures p !in Gone(w.t, c.started)
  {
    var fs := w.t.folders;
    var loose := set q | q in fs && !KeptFolder(c, w.log, q);
    var stale := StaleFolders(w.t, c.started);
    UnstampedClosed(c, t0, w);
    assert FolderLink(w.t, p);
    forall q | q in stale
      ensures q in loose - {p}
    {
      KeptRows(c, t0, w, q);
    }
    forall q | q in fs && IsChildOf(fs, q, loose - {p})
      ensures q in loose - {p}
    {
      assert IsChildOf(fs, q, loose);
    }
    CascadeIsLeastClosure(fs, stale, loose - {p});
  }

  lemma OutlivingStays(c: Config, t0: Tables, w: State, p: Path)
    requires Walked(c, t0, w) && Outlives(c, w.t, w.log, p)
    ensures !ExactAt(c, w.log, Sweep(w.t, c.started), p)
  {
    SweepByGone(w.t, c.started, p);
    if p in w.t.folders && !KeptFolder(c, w.log, p) && w.t.folders[p].seenAt >= c.started &&
       (w.t.folders[p].parent.None? || (p != [] && KeptFolder(c, w.log, Parent(p)))) {
      OutlivingFolderStays(c, t0, w, p);
    } else {
      SweepSparesStamped(c, t0, w, Parent(p));
      SweepByGone(w.t, c.started, Parent(p));
    }
  }

  /** Above an unstamped folder that stays there is one that the prune cannot reach. */
  lemma {:induction false} StayingFolderOutlives(c: Config, t0: Tables, w: State, p: Path) returns (q: Path)
    requires Walked(c, t0, w) && p in w.t.folders && !KeptFolder(c, w.log, p) && p !in Gone(w.t, c.started)
    ensures Outlives(c, w.t, w.log, q)
    decreases |p|
  {
    var fs, stale := w.t.folders, StaleFolders(w.t, c.started);
    CascadeIsLeastClosure(fs, stale, {});
    assert p !in stale && FolderLink(w.t, p);
    if fs[p].parent.None? || KeptFolder(c, w.log, Parent(p)) {
      q := p;
    } else {
      assert Parent(p) in Gone(w.t, c.started) ==> IsChildOf(fs, p, Gone(w.t, c.started));
      q := StayingFolderOutlives(c, t0, w, Parent(p));
    }
  }

  lemma InexactOutlives(c: Config, t0: Tables, w: State, p: Path) returns (q: Path)
    requires Walked(c, t0, w) && !ExactAt(c, w.log, Sweep(w.t, c.started), p)
    ensures Outlives(c, w.t, w.log, q)
  {
    SweepSparesStamped(c, t0, w, p);
    SweepByGone(w.t, c.started, p);
    if p in Sweep(w.t, c.started).folders && !KeptFolder(c, w.log, p) {
      q := StayingFolderOutlives(c, t0, w, p);
    } else {
      assert BookLink(w.t, p);
      if KeptFolder(c, w.log, Parent(p)) {
        q := p;
      } else {
        q := StayingFolderOutlives(c, t0, w, Parent(p));
      }
    }
  }

  lemma OutlivesUnchanged(c: Config, t: Tables, lib: Library, p: Path)
    requires Wellformed(t) && DistinctNames(lib.kids) && StartWalk(c, t, lib.info).Some?
    ensures var w := WalkLibrary(c, t, lib); Outlives(c, w.t, w.log, p) <==> Outlives(c, t, w.log, p)
  {
    StampedOrSame(c, t, lib, p);
  }

  /** Whatever the clock has done, the prune leaves exactly the stamped rows if and only if no row
      that the scan left unstamped is out of its reach. */
  lemma PruneIsExactIff(c: Config, t: Tables, lib: Library)
    requires Wellformed(t) && DistinctNames(lib.kids) && StartWalk(c, t, lib.info).Some?
    ensures var w := WalkLibrary(c, t, lib);
            Exact(c, w.log, Sweep(w.t, c.started)) <==> forall p :: !Outlives(c, t, w.log, p)
  {
    var t0, w := StartWalk(c, t, lib.info).value.t, WalkLibrary(c, t, lib);
    WalkLibraryWalked(c, t, lib);
    forall p
      ensures Outlives(c, w.t, w.log, p) <==> Outlives(c, t, w.log, p)
    {
      OutlivesUnchanged(c, t, lib, p);
    }
    if p :| Outlives(c, w.t, w.log, p) {
      OutlivingStays(c, t0, w, p);
    } else if p :| !ExactAt(c, w.log, Sweep(w.t, c.started), p) {
      var q := InexactOutlives(c, t0, w, p);
    }
  }

  // ---------------------------------------------------------------------
  // While the clock does not go back
  // ---------------------------------------------------------------------

  ghost predicate FolderSeenInOrder(t: Tables, p: Path)
    requires p in t.folders
  {
    t.folders[p].parent.Some? ==>
      p != [] && Parent(p) in t.folders && t.folders[p].seenAt <= t.folders[Parent(p)].seenAt
  }

  ghost predicate BookSeenInOrder(t: Tables, p: Path)
    requires p in t.books
  {
    p != [] && Parent(p) in t.folders && t.books[p].seenAt <= t.folders[Parent(p)].seenAt
  }

  /** No row was seen later than the folder it is in. */
  ghost predicate SeenOrdered(t: Tables) {
    (forall p :: p in t.folders ==> FolderSeenInOrder(t, p)) &&
    (forall p :: p in t.books ==> BookSeenInOrder(t, p))
  }

  ghost predicate NoneNewer(t: Tables, now: int) {
    (forall p :: p in t.folders ==> t.folders[p].seenAt <= now) &&
    (forall p :: p in t.books ==> t.books[p].seenAt <= now)
  }

  lemma StaleIsClosed(t: Tables, started: int)
    requires FolderIds(t) && Links(t) && SeenOrdered(t)
    ensures Closed(t.folders, StaleFolders(t, started))
  {
    var stale := StaleFolders(t, started);
    forall p | p in t.folders && IsChildOf(t.folders, p, stale)
      ensures p in stale
    {
      assert FolderLink(t, p);
      var q :| q in stale && q in t.folders && t.folders[q].id == t.folders[p].parent.value;
      assert q == Parent(p) && FolderSeenInOrder(t, p);
    }
  }

  /** `p` survives the prune exactly if it was seen since the scan started. */
  ghost predicate FilteredAt(t: Tables, t': Tables, started: int, p: Path) {
    (p in t'.folders <==> p in t.folders && t.folders[p].seenAt >= started) &&
    (p in t'.books <==> p in t.books && t.books[p].seenAt >= started)
  }

  lemma StaleNotCascading(t: Tables, started: int)
    requires FolderIds(t) && Links(t) && SeenOrdered(t)
    ensures Cascade(t.folders, StaleFolders(t, started)) == StaleFolders(t, started)
  {
    StaleIsClosed(t, started);
    CascadeIsLeastClosure(t.folders, StaleFolders(t, started), StaleFolders(t, started));
  }

  lemma FolderOfFreshBook(t: Tables, started: int, p: Path)
    requires FolderIds(t) && Links(t) && SeenOrdered(t) && p in t.books && t.books[p].seenAt >= started
    ensures forall q :: q in StaleFolders(t, started) ==> t.folders[q].id != t.books[p].folder
  {
    assert BookLink(t, p) && BookSeenInOrder(t, p);
  }

  lemma SweptFolders(t: Tables, started: int, p: Path)
    requires FolderIds(t) && Links(t) && SeenOrdered(t)
    ensures p in Sweep(t, started).folders <==> p in t.folders && t.folders[p].seenAt >= started
  {
    assert StaleFolders(PruneBooks(t, started), started) == StaleFolders(t, started);
    StaleNotCascading(t, started);
  }

  lemma SweptBooks(t: Tables, started: int, p: Path)
    requires FolderIds(t) && Links(t) && SeenOrdered(t)
    ensures p in Sweep(t, started).books <==> p in t.books && t.books[p].seenAt >= started
  {
    assert StaleFolders(PruneBooks(t, started), started) == StaleFolders(t, started);
    StaleNotCascading(t, started);
    if p in t.books && t.books[p].seenAt >= started {
      FolderOfFreshBook(t, started, p);
    }
  }

  /** In that order the cascade adds nothing: the prune just drops the older rows. */
  lemma SweepIsFilter(t: Tables, started: int, p: Path)
    requires FolderIds(t) && Links(t) && SeenOrdered(t)
    ensures FilteredAt(t, Sweep(t, started), started, p)
  {
    SweptFolders(t, started, p);
    SweptBooks(t, started, p);
  }

  /** `p` has a row last seen in the very second the scan started that the scan did not stamp. */
  ghost predicate SameSecondLeftover(c: Config, t: Tables, log: map<Path, Entry>, p: Path) {
    (p in t.folders && !KeptFolder(c, log, p) && t.folders[p].seenAt == c.started) ||
    (p in t.books && !KeptBook(log, p) && t.books[p].seenAt == c.started)
  }

  /** Above an unstamped folder of this second there is one that the prune cannot reach. */
  lemma {:induction false} LeftoverFolderOutlives(c: Config, t: Tables, log: map<Path, Entry>, p: Path)
      returns (q: Path)
    requires SeenOrdered(t) && NoneNewer(t, c.started)
    requires p in t.folders && !KeptFolder(c, log, p) && t.folders[p].seenAt == c.started
    ensures Outlives(c, t, log, q)
    decreases |p|
  {
    assert FolderSeenInOrder(t, p);
    if t.folders[p].parent.None? || KeptFolder(c, log, Parent(p)) {
      q := p;
    } else {
      q := LeftoverFolderOutlives(c, t, log, Parent(p));
    }
  }

  lemma LeftoverOutlives(c: Config, t: Tables, log: map<Path, Entry>, p: Path) returns (q: Path)
    requires SeenOrdered(t) && NoneNewer(t, c.started) && SameSecondLeftover(c, t, log, p)
    ensures Outlives(c, t, log, q)
  {
    if p in t.folders && !KeptFolder(c, log, p) && t.folders[p].seenAt == c.started {
      q := LeftoverFolderOutlives(c, t, log, p);
    } else {
      assert BookSeenInOrder(t, p);
      if KeptFolder(c, log, Parent(p)) {
        q := p;
      } else {
        q := LeftoverFolderOutlives(c, t, log, Parent(p));
      }
    }
  }

  /** `started` counts whole seconds and the prune compares strictly. While the clock
      does not go back, the prune is exact if and only if no row that this scan left
      unstamped was last seen in the second the scan started. */
  lemma SameSecondIff(c: Config, t: Tables, lib: Library)
    requires Wellformed(t) && DistinctNames(lib.kids) && StartWalk(c, t, lib.info).Some?
    requires SeenOrdered(t) && NoneNewer(t, c.started)
    ensures var w := WalkLibrary(c, t, lib);
            Exact(c, w.log, Sweep(w.t, c.started)) <==> forall p :: !SameSecondLeftover(c, t, w.log, p)
  {
    PruneIsExactIff(c, t, lib);
    var log := WalkLibrary(c, t, lib).log;
    if p :| SameSecondLeftover(c, t, log, p) {
      var q := LeftoverOutlives(c, t, log, p);
    }
    forall p
      ensures Outlives(c, t, log, p) ==> SameSecondLeftover(c, t, log, p)
    {
    }
  }

  lemma TwoFoldersWellformed(r: Path, d: Path, root: Folder, dir: Folder)
    requires d != [] && Parent(d) == r && r != d
    requires root.id == 1 && root.parent.None? && dir.id == 2 && dir.parent == Some(1) && root.slug != dir.slug
    ensures Wellformed(Tables(map[r := root, d := dir], map[], 2, 0))
  {
    var t := Tables(map[r := root, d := dir], map[], 2, 0);
    forall p | p in t.folders
      ensures FolderLink(t, p)
    {
    }
  }

  /** A folder removed within the second of the scan that stamped it survives the next scan. */
  lemma SameSecondSurvives() returns (c: Config, t: Tables, lib: Library)
    ensures Wellformed(t) && DistinctNames(lib.kids) && StartWalk(c, t, lib.info).Some?
    ensures SeenOrdered(t) && NoneNewer(t, c.started)
    ensures var w := WalkLibrary(c, t, lib); !Exact(c, w.log, Sweep(w.t, c.started))
  {
    var info := DirInfo(0, None, None);
    var r: Path, d: Path := [], ["d"];
    c := Config(r, None, 7, p => if p == [] then "root" else "other", p => None, {});
    var root := Folder(1, None, "/", "/", None, None, None, "root", 0, 7);
    var dir := Folder(2, Some(1), "d", "d", None, None, None, "other", 0, 7);
    t := Tables(map[r := root, d := dir], map[], 2, 0);
    lib := Library(info, []);
    assert Parent(d) == r;
    TwoFoldersWellformed(r, d, root, dir);
    assert !SlugTaken(t, r, "root");
    SameSecondIff(c, t, lib);
    var w := WalkLibrary(c, t, lib);
    assert w.log == map[];
    assert SameSecondLeftover(c, t, w.log, d);
  }
}
