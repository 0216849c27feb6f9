/** The scanner as it runs: a database object updated in place by the walk, the
    prune and the cover refresh (src/scan.rs:75-225 and 346-549). */
module Scanner {
  import opened Wrappers
  import opened Text
  import opened Catalog
  import opened Walk
  import opened Marking
  import opened Sweeping
  import opened Queries

  /** The token `refresh_cover_versions` stores for a folder. */
  ghost predicate IsCoverToken(t: Tables, coverMtime: Path -> Option<nat>, a: Path, v: Option<string>)
    requires a in t.folders
  {
    var cover := t.folders[a].cover;
    if cover.Some? && coverMtime(cover.value).Some?
    then v == Some("p" + Decimal(coverMtime(cover.value).value))
    else IsCoverHash(t, a, v)
  }

  ghost predicate SameButTokenAt(t: Tables, t': Tables, p: Path)
    requires p in t.folders && p in t'.folders
  {
    t'.folders[p] == t.folders[p].(coverVersion := t'.folders[p].coverVersion)
  }

  ghost predicate SameButTokens(t: Tables, t': Tables) {
    && t'.books == t.books && t'.lastBook == t.lastBook && t'.lastFolder == t.lastFolder
    && t'.folders.Keys == t.folders.Keys
    && forall p :: p in t.folders ==> SameButTokenAt(t, t', p)
  }

  /** Every folder's token is the one the queries give, and nothing else has changed. */
  ghost predicate Refreshed(t: Tables, t': Tables, coverMtime: Path -> Option<nat>) {
    SameButTokens(t, t') &&
    forall p :: p in t'.folders ==> IsCoverToken(t, coverMtime, p, t'.folders[p].coverVersion)
  }

  lemma {:induction false} TokensDoNotMoveFolders(t: Tables, t': Tables, a: Path, p: Path)
    requires SameButTokens(t, t')
    ensures Descends(t, a, p) == Descends(t', a, p)
    decreases |p|
  {
    assert p in t.folders ==> SameButTokenAt(t, t', p);
    if p != [] {
      TokensDoNotMoveFolders(t, t', a, Parent(p));
    }
  }

  /** The queries behind a token never read tokens. */
  lemma TokensDoNotMatter(t: Tables, t': Tables, coverMtime: Path -> Option<nat>, a: Path, v: Option<string>)
    requires SameButTokens(t, t') && a in t.folders
    ensures IsCoverHash(t, a, v) <==> IsCoverHash(t', a, v)
    ensures IsCoverToken(t, coverMtime, a, v) <==> IsCoverToken(t', coverMtime, a, v)
  {
    assert SameButTokenAt(t, t', a);
    forall b | b in t.books && b != []
      ensures Descends(t, a, Parent(b)) == Descends(t', a, Parent(b))
    {
      TokensDoNotMoveFolders(t, t', a, Parent(b));
    }
    assert SubtreeBooks(t, a) == SubtreeBooks(t', a);
    assert BooksIn(t, t.folders[a].id) == BooksIn(t', t'.folders[a].id);
    var from := CoverCandidates(t, a);
    assert from == CoverCandidates(t', a);
    forall b | b in from
      ensures IsFirst(t, from, b) == IsFirst(t', from, b)
    {
    }
  }

  ghost function TokensOf(t: Tables): map<Path, Option<string>> {
    map p | p in t.folders :: t.folders[p].coverVersion
  }

  lemma TokensAreSet(t: Tables, t': Tables)
    requires SameButTokens(t, t')
    ensures t' == SetCoverVersions(t, TokensOf(t'))
  {
    forall p | p in t'.folders
      ensures t'.folders[p] == SetCoverVersions(t, TokensOf(t')).folders[p]
    {
      assert SameButTokenAt(t, t', p);
    }
    assert t'.folders == SetCoverVersions(t, TokensOf(t')).folders;
  }

  lemma OneMoreToken(t: Tables, t': Tables, p: Path, version: Option<string>)
    requires SameButTokens(t, t') && p in t'.folders
    ensures SameButTokens(t, t'.(folders := t'.folders[p := t'.folders[p].(coverVersion := version)]))
  {
    var u := t'.(folders := t'.folders[p := t'.folders[p].(coverVersion := version)]);
    forall q | q in t.folders
      ensures SameButTokenAt(t, u, q)
    {
      assert SameButTokenAt(t, t', q);
    }
  }

  lemma TokensKeepTree(t: Tables, t': Tables)
    requires Wellformed(t) && SameButTokens(t, t')
    ensures Wellformed(t')
  {
    TokensAreSet(t, t');
    SetCoverVersionsKeepsTree(t, TokensOf(t'));
  }

  /** Statements after the walk that may fail, aborting the scan; the last is the query of `prewarm`. */
  datatype Trouble = NoTrouble | DeletingBooks | DeletingFolders | Updating(paths: set<Path>) | Prewarming

  /** What a scan of a tree leaves in the tables, and whether it reports success, for
      every statement at which it can fail. */
  ghost predicate ScanLeft(c: Config, t: Tables, lib: Library, trouble: Trouble, ok: bool, t': Tables) {
    var started := StartWalk(c, t, lib.info);
    if started.None? then !ok && t' == t
    else
      var walked := WalkLibrary(c, t, lib).t;
      match trouble
      case NoTrouble => ok && Refreshed(Sweep(walked, c.started), t', c.coverMtime)
      case DeletingBooks => !ok && t' == walked
      case DeletingFolders => !ok && t' == PruneBooks(walked, c.started)
      case Updating(paths) =>
        SameButTokens(Sweep(walked, c.started), t') &&
        (ok <==> paths !! t'.folders.Keys) &&
        (ok ==> Refreshed(Sweep(walked, c.started), t', c.coverMtime))
      case Prewarming => !ok && Refreshed(Sweep(walked, c.started), t', c.coverMtime)
  }

  class Db {
    var folders: map<Path, Folder>
    var books: map<Path, Book>
    var lastFolder: int
    var lastBook: int

    ghost function View(): Tables
      reads this
    {
      Tables(folders, books, lastFolder, lastBook)
    }

    /** A freshly migrated database. */
    constructor ()
      ensures View() == EMPTY
    {
      folders, books, lastFolder, lastBook := map[], map[], 0, 0;
    }

    method UpsertFolder(c: Config, p: Path, parent: Option<int>, override: Option<string>, info: DirInfo)
      returns (id: Option<int>)
      modifies this
      ensures (View(), id) == Catalog.UpsertFolder(c, old(View()), p, parent, override, info)
    {
      var slug := c.slug(p);
      var rejected := p in c.faults || (exists q :: q in folders && q != p && folders[q].slug == slug) ||
                      (parent.Some? && !(exists q :: q in folders && folders[q].id == parent.value));
      if rejected {
        return None;
      }
      if p in folders {
        var was := folders[p];
        folders := folders[p := FolderRow(c, p, was.id, parent, override, info, was.coverVersion)];
        return Some(was.id);
      } else {
        lastFolder := lastFolder + 1;
        folders := folders[p := FolderRow(c, p, lastFolder, parent, override, info, None)];
        return Some(lastFolder);
      }
    }

    method UpsertBook(c: Config, p: Path, folder: int, info: FileInfo) returns (o: Outcome)
      requires p != []
      modifies this
      ensures (View(), o) == Catalog.UpsertBook(c, old(View()), p, folder, info)
    {
      if info.stat.None? {
        return Failed;
      }
      var st := info.stat.value;
      if st.size > MAX_ARCHIVE_BYTES {
        return Skipped;
      }
      var rejected := p in c.faults || !(exists q :: q in folders && folders[q].id == folder);
      if p in books && books[p].mtime == st.mtime && books[p].size == st.size {
        if rejected { return Failed; }
        books := books[p := books[p].(seenAt := c.started, folder := folder)];
        return Stamped;
      }
      if info.content.hash.None? { return Failed; }
      if info.content.kind.None? { return Failed; }
      if info.content.pages.None? { return Failed; }
      var pages := info.content.pages.value;
      if pages == 0 { return Skipped; }
      if pages > MAX_PAGES { return Skipped; }
      var format := match info.content.kind.value { case Zip => "cbz" case Rar => "cbr" };
      var found := Usable(info.content.hash.value, format, pages);
      if rejected { return Failed; }
      if p in books {
        books := books[p := BookRow(c, p, books[p].id, folder, st, found, books[p].addedAt)];
      } else {
        lastBook := lastBook + 1;
        books := books[p := BookRow(c, p, lastBook, folder, st, found, c.started)];
      }
      return Stamped;
    }

    /** The walk: a work list of entries still to be yielded, and `path_to_id`. */
    method WalkTree(c: Config, rootId: int, kids: seq<Node>) returns (ghost log: map<Path, Entry>)
      modifies this
      ensures View() == Drive(c, State(old(View()), map[c.root := rootId], map[]), Items(c.root, kids)).t
      ensures log == Drive(c, State(old(View()), map[c.root := rootId], map[]), Items(c.root, kids)).log
    {
      var ids := map[c.root := rootId];
      var pending := Items(c.root, kids);
      log := map[];
      ghost var goal := Drive(c, State(View(), ids, log), pending);
      while pending != []
        invariant Drive(c, State(View(), ids, log), pending) == goal
        decreases Size(pending)
      {
        ghost var w, work := State(View(), ids, log), pending;
        SizeShrinks(work, Step(c, w, work[0]).1);
        var entry := pending[0];
        var below := Below(entry);
        var n, path := entry.node, entry.At();
        if n.Dir? && n.name in IGNORED_DIRS {
          below := [];
        } else if Hidden(n.name) {
          below := [];
        } else if n.Dir? {
          if entry.dir in ids {
            var id := UpsertFolder(c, path, Some(ids[entry.dir]), None, n.info);
            log := log[path := Entry(n, if id.None? then Failed else Stamped)];
            if id.None? {
              below := [];
            } else {
              ids := ids[path := id.value];
            }
          }
        } else if n.File? {
          if Supported(n.name) && entry.dir in ids {
            var o := UpsertBook(c, path, ids[entry.dir], n.file);
            log := log[path := Entry(n, o)];
          }
        }
        pending := below + pending[1..];
        assert (State(View(), ids, log), pending) == Next(c, w, work);
      }
    }

    method DeleteOldBooks(started: int)
      modifies this
      ensures View() == PruneBooks(old(View()), started)
    {
      books := map p | p in books && books[p].seenAt >= started :: books[p];
    }

    /** `DELETE FROM folder` with both cascades, one generation of children at a time. */
    method DeleteOldFolders(started: int)
      modifies this
      ensures View() == PruneFolders(old(View()), started)
    {
      var gone := set p | p in folders && folders[p].seenAt < started;
      ghost var all := Cascade(folders, gone);
      var more := set p | p in folders && p !in gone && IsChildOf(folders, p, gone);
      while more != {}
        invariant more == set p | p in folders && p !in gone && IsChildOf(folders, p, gone)
        invariant Cascade(folders, gone) == all
        invariant folders == old(folders)
        decreases folders.Keys - gone
      {
        assert folders.Keys - (gone + more) < folders.Keys - gone by {
          var p :| p in more;
          assert p in folders.Keys - gone;
        }
        gone := gone + more;
        more := set p | p in folders && p !in gone && IsChildOf(folders, p, gone);
      }
      books := map p | p in books &&
                 !(exists q :: q in gone && q in folders && folders[q].id == books[p].folder) :: books[p];
      folders := map p | p in folders && p !in gone :: folders[p];
    }

    /** Stores every folder's cover token, stopping at the first update that fails. */
    method RefreshCoverVersions(c: Config, trouble: set<Path>) returns (ok: bool)
      requires Wellformed(View())
      modifies this
      ensures ok <==> trouble !! folders.Keys
      ensures SameButTokens(old(View()), View())
      ensures ok ==> Refreshed(old(View()), View(), c.coverMtime)
    {
      ghost var t0 := View();
      var left := folders.Keys;
      while left != {}
        invariant left <= folders.Keys && trouble !! (folders.Keys - left)
        invariant SameButTokens(t0, View())
        invariant forall p :: p in folders && p !in left ==>
                    IsCoverToken(t0, c.coverMtime, p, folders[p].coverVersion)
      {
        var p :| p in left;
        TokensKeepTree(t0, View());
        var version := CoverVersionFor(Tables(folders, books, lastFolder, lastBook), c.coverMtime, p);
        TokensDoNotMatter(t0, View(), c.coverMtime, p, version);
        if p in trouble {
          return false;
        }
        OneMoreToken(t0, View(), p, version);
        folders := folders[p := folders[p].(coverVersion := version)];
        left := left - {p};
      }
      return true;
    }

    /** One scan. It reports failure exactly when the root upsert or a statement
        after the walk fails, and leaves a well-formed tree in every case. */
    method Scan(c: Config, lib: Library, trouble: Trouble) returns (ok: bool)
      requires Wellformed(View()) && DistinctNames(lib.kids)
      modifies this
      ensures Wellformed(View())
      ensures ScanLeft(c, old(View()), lib, trouble, ok, View())
    {
      ghost var t0 := View();
      var rootId := UpsertFolder(c, c.root, None, c.libraryName, lib.info);
      if rootId.None? {
        return false;
      }
      WalkLibraryWalked(c, t0, lib);
      ghost var log := WalkTree(c, rootId.value, lib.kids);
      assert View() == WalkLibrary(c, t0, lib).t;
      if trouble.DeletingBooks? {
        return false;
      }
      PruneBooksKeepsTree(View(), c.started);
      DeleteOldBooks(c.started);
      if trouble.DeletingFolders? {
        return false;
      }
      PruneFoldersKeepsTree(View(), c.started);
      DeleteOldFolders(c.started);
      ghost var swept := View();
      ok := RefreshCoverVersions(c, if trouble.Updating? then trouble.paths else {});
      TokensKeepTree(swept, View());
      if trouble.Prewarming? {
        return false;
      }
    }
  }
}
