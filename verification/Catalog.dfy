/** The two database tables (migrations/0001_init.sql, 0002_allow_duplicate_hashes.sql)
    and the statements the scanner issues against them (src/scan.rs). */
module Catalog {
  import opened Wrappers
  import opened Text
  import NatSort

  /** An absolute path as its components; `[]` is the file-system root. */
  type Path = seq<string>

  function Parent(p: Path): Path
    requires p != []
  {
    p[..|p| - 1]
  }

  function Base(p: Path): string
    requires p != []
  {
    p[|p| - 1]
  }

  datatype Folder = Folder(
    id: int, parent: Option<int>, name: string, sortKey: string, cover: Option<Path>,
    coverVersion: Option<string>, description: Option<string>, slug: string, mtime: int, seenAt: int)

  datatype Book = Book(
    id: int, folder: int, hash: string, name: string, sortKey: string, format: string,
    size: int, mtime: int, pages: int, addedAt: int, seenAt: int)

  /** Both tables are keyed by their UNIQUE `path` column. The last row ids ever
      issued are kept, as AUTOINCREMENT does, so that ids are never reused. */
  datatype Tables = Tables(
    folders: map<Path, Folder>, books: map<Path, Book>, lastFolder: int, lastBook: int)

  const EMPTY := Tables(map[], map[], 0, 0)

  // ---------------------------------------------------------------------
  // What the file system tells the scanner about one entry
  // ---------------------------------------------------------------------

  datatype DirInfo = DirInfo(mtime: int, coverName: Option<string>, description: Option<string>)

  datatype Stat = Stat(size: nat, mtime: int)

  datatype Kind = Zip | Rar

  /** Results of hashing, sniffing and opening an archive; `None` is an error. */
  datatype Content = Content(hash: Option<string>, kind: Option<Kind>, pages: Option<nat>)

  datatype FileInfo = FileInfo(stat: Option<Stat>, content: Content)

  const MAX_ARCHIVE_BYTES: nat := 4 * 1024 * 1024 * 1024
  const MAX_PAGES: nat := 10_000

  /** The verdict of the slow path on an archive's content. */
  datatype Inspection = Unreadable | Unusable | Usable(hash: string, format: string, pages: nat)

  function Inspect(c: Content): Inspection {
    if c.hash.None? || c.kind.None? || c.pages.None? then Unreadable
    else if c.pages.value == 0 || c.pages.value > MAX_PAGES then Unusable
    else Usable(c.hash.value, if c.kind.value.Zip? then "cbz" else "cbr", c.pages.value)
  }

  /** The parameters of one scan. A write to a row whose path is in `faults` fails. */
  datatype Config = Config(
    root: Path, libraryName: Option<string>, started: int, slug: Path -> string,
    coverMtime: Path -> Option<nat>, faults: set<Path>)

  /** Index of the last `.` of a file name. */
  function LastDot(name: string): (i: int)
    ensures -1 <= i < |name|
  {
    if name == [] then -1
    else if name[|name| - 1] == '.' then |name| - 1
    else LastDot(name[..|name| - 1])
  }

  /** The file name without its extension. */
  function Stem(name: string): string {
    if LastDot(name) <= 0 then name else name[..LastDot(name)]
  }

  function LowerAll(s: string): string {
    seq(|s|, i requires 0 <= i < |s| => Lower(s[i]))
  }

  predicate Supported(name: string) {
    LastDot(name) > 0 && LowerAll(name[LastDot(name) + 1..]) in {"cbz", "zip", "cbr", "rar"}
  }

  predicate SameUpToCase(s: string, t: string) {
    |s| == |t| && forall i :: 0 <= i < |s| ==> SameLetter(s[i], t[i])
  }

  predicate IsArchiveExtension(ext: string) {
    SameUpToCase(ext, "cbz") || SameUpToCase(ext, "zip") || SameUpToCase(ext, "cbr") || SameUpToCase(ext, "rar")
  }

  lemma {:induction false} LastDotSplits(stem: string, ext: string)
    requires '.' !in ext
    ensures LastDot(stem + "." + ext) == |stem|
    decreases |ext|
  {
    var name := stem + "." + ext;
    if ext != [] {
      var init := ext[..|ext| - 1];
      LastDotSplits(stem, init);
      assert name[..|name| - 1] == stem + "." + init;
    }
  }

  lemma {:induction false} LastDotIsLast(name: string)
    ensures var i := LastDot(name);
            (i >= 0 ==> name[i] == '.') && forall j :: i < j < |name| ==> name[j] != '.'
  {
    if name != [] {
      LastDotIsLast(name[..|name| - 1]);
    }
  }

  /** What comes before the extension is the stem; without an extension the stem is the whole name. */
  lemma StemIsBeforeExtension(name: string)
    ensures forall stem, ext :: name == stem + "." + ext && stem != [] && '.' !in ext ==> Stem(name) == stem
    ensures '.' !in name[if name == [] then 0 else 1..] ==> Stem(name) == name
  {
    forall stem, ext | name == stem + "." + ext && stem != [] && '.' !in ext
      ensures Stem(name) == stem
    {
      LastDotSplits(stem, ext);
    }
    LastDotIsLast(name);
    if LastDot(name) > 0 {
      assert name[1..][LastDot(name) - 1] == '.';
    }
  }

  lemma LowerIsSameLetter(s: string, e: string)
    requires forall i :: 0 <= i < |e| ==> 'a' <= e[i] <= 'z'
    ensures LowerAll(s) == e <==> SameUpToCase(s, e)
  {
    if SameUpToCase(s, e) {
      assert LowerAll(s) == e;
    }
  }

  lemma ExtensionByLowering(ext: string)
    ensures LowerAll(ext) in {"cbz", "zip", "cbr", "rar"} <==> IsArchiveExtension(ext)
    ensures IsArchiveExtension(ext) ==> '.' !in ext
  {
    LowerIsSameLetter(ext, "cbz");
    LowerIsSameLetter(ext, "zip");
    LowerIsSameLetter(ext, "cbr");
    LowerIsSameLetter(ext, "rar");
  }

  lemma SplitAtDot(name: string, i: nat)
    requires i < |name| && name[i] == '.'
    ensures name == name[..i] + "." + name[i + 1..]
  {
  }

  /** A non-empty stem, a dot, and one of the four extensions in any case. */
  predicate ArchiveName(name: string, stem: string, ext: string) {
    stem != [] && IsArchiveExtension(ext) && name == stem + "." + ext
  }

  lemma ArchiveNameIsSupported(name: string, stem: string, ext: string)
    requires ArchiveName(name, stem, ext)
    ensures Supported(name) && Stem(name) == stem
  {
    ExtensionByLowering(ext);
    LastDotSplits(stem, ext);
    ExtensionOf(stem, ext);
  }

  /** A file is taken for an archive exactly if it has such a name, and then its stem is that stem. */
  lemma SupportedIff(name: string)
    ensures Supported(name) <==> exists stem, ext :: ArchiveName(name, stem, ext)
    ensures forall stem, ext :: ArchiveName(name, stem, ext) ==> Stem(name) == stem
  {
    if Supported(name) {
      var i := LastDot(name);
      LastDotIsLast(name);
      ExtensionByLowering(name[i + 1..]);
      SplitAtDot(name, i);
      assert ArchiveName(name, name[..i], name[i + 1..]);
    }
    forall stem, ext | ArchiveName(name, stem, ext)
      ensures Supported(name) && Stem(name) == stem
    {
      ArchiveNameIsSupported(name, stem, ext);
    }
  }

  lemma ExtensionOf(stem: string, ext: string)
    ensures (stem + "." + ext)[|stem| + 1..] == ext
  {
  }

  // ---------------------------------------------------------------------
  // Upserts
  // ---------------------------------------------------------------------

  predicate FolderIdExists(t: Tables, id: int) {
    exists q :: q in t.folders && t.folders[q].id == id
  }

  predicate SlugTaken(t: Tables, p: Path, slug: string) {
    exists q :: q in t.folders && q != p && t.folders[q].slug == slug
  }

  /** File name of a folder; the file-system root is shown by its whole path. */
  function DisplayName(p: Path): string {
    if p == [] then "/" else Base(p)
  }

  /** The row `upsert_folder` writes: everything but the id and the cover token is refreshed. */
  function FolderRow(c: Config, p: Path, id: int, parent: Option<int>, override: Option<string>,
                     info: DirInfo, coverVersion: Option<string>): Folder
  {
    var name := if override.Some? then override.value else DisplayName(p);
    var cover := if info.coverName.Some? then Some(p + [info.coverName.value]) else None;
    Folder(id, parent, name, NatSort.Key(name), cover, coverVersion, info.description,
           c.slug(p), info.mtime, c.started)
  }

  function UpsertFolder(c: Config, t: Tables, p: Path, parent: Option<int>, override: Option<string>,
                        info: DirInfo): (Tables, Option<int>)
  {
    if p in c.faults || SlugTaken(t, p, c.slug(p)) || (parent.Some? && !FolderIdExists(t, parent.value)) then
      (t, None)
    else if p in t.folders then
      var was := t.folders[p];
      var row := FolderRow(c, p, was.id, parent, override, info, was.coverVersion);
      (t.(folders := t.folders[p := row]), Some(was.id))
    else
      var id := t.lastFolder + 1;
      var row := FolderRow(c, p, id, parent, override, info, None);
      (t.(folders := t.folders[p := row], lastFolder := id), Some(id))
  }

  datatype Outcome = Stamped | Skipped | Failed

  predicate Unchanged(t: Tables, p: Path, st: Stat) {
    p in t.books && t.books[p].mtime == st.mtime && t.books[p].size == st.size
  }

  function BookRow(c: Config, p: Path, id: int, folder: int, st: Stat, found: Inspection, addedAt: int): Book
    requires p != [] && found.Usable?
  {
    var stem := Stem(Base(p));
    Book(id, folder, found.hash, stem, NatSort.Key(stem), found.format, st.size, st.mtime,
         found.pages, addedAt, c.started)
  }

  /** What `upsert_book` does, given the file and the row already there. */
  function BookOutcome(c: Config, t: Tables, p: Path, info: FileInfo): Outcome {
    if info.stat.None? then Failed
    else if info.stat.value.size > MAX_ARCHIVE_BYTES then Skipped
    else if Unchanged(t, p, info.stat.value) then (if p in c.faults then Failed else Stamped)
    else
      match Inspect(info.content)
      case Unreadable => Failed
      case Unusable => Skipped
      case Usable(_, _, _) => if p in c.faults then Failed else Stamped
  }

  /** The row `upsert_book` leaves at `p` when it succeeds. */
  function BookAfter(c: Config, t: Tables, p: Path, folder: int, info: FileInfo, id: int): Book
    requires p != [] && BookOutcome(c, t, p, info) == Stamped
  {
    var st := info.stat.value;
    if Unchanged(t, p, st) then t.books[p].(seenAt := c.started, folder := folder)
    else
      BookRow(c, p, id, folder, st, Inspect(info.content),
              if p in t.books then t.books[p].addedAt else c.started)
  }

  function UpsertBook(c: Config, t: Tables, p: Path, folder: int, info: FileInfo): (Tables, Outcome)
    requires p != []
  {
    var o := BookOutcome(c, t, p, info);
    if o != Stamped then (t, o)
    else if !FolderIdExists(t, folder) then (t, Failed)
    else
      var id := if p in t.books then t.books[p].id else t.lastBook + 1;
      (t.(books := t.books[p := BookAfter(c, t, p, folder, info, id)],
          lastBook := if p in t.books then t.lastBook else id), Stamped)
  }

  // ---------------------------------------------------------------------
  // Pruning with ON DELETE CASCADE
  // ---------------------------------------------------------------------

  predicate IsChildOf(folders: map<Path, Folder>, p: Path, doomed: set<Path>) {
    p in folders && folders[p].parent.Some? &&
    exists q :: q in doomed && q in folders && folders[q].id == folders[p].parent.value
  }

  /** Closure of a set of folder rows under "its parent row is deleted". */
  function Cascade(folders: map<Path, Folder>, doomed: set<Path>): set<Path>
    decreases folders.Keys - doomed
  {
    var more := set p | p in folders && p !in doomed && IsChildOf(folders, p, doomed);
    if more == {} then doomed
    else
      assert folders.Keys - (doomed + more) < folders.Keys - doomed by {
        var p :| p in more;
        assert p in folders.Keys - doomed;
      }
      Cascade(folders, doomed + more)
  }

  predicate Closed(folders: map<Path, Folder>, s: set<Path>) {
    forall p :: p in folders && IsChildOf(folders, p, s) ==> p in s
  }

  /** The cascade is the least closed superset of the rows being deleted. */
  lemma {:induction false} CascadeIsLeastClosure(folders: map<Path, Folder>, doomed: set<Path>, upper: set<Path>)
    ensures doomed <= Cascade(folders, doomed) && Closed(folders, Cascade(folders, doomed))
    ensures Cascade(folders, doomed) <= doomed + folders.Keys
    ensures doomed <= upper && Closed(folders, upper) ==> Cascade(folders, doomed) <= upper
    decreases folders.Keys - doomed
  {
    var more := set p | p in folders && p !in doomed && IsChildOf(folders, p, doomed);
    if more == {} {
      forall p | p in folders && IsChildOf(folders, p, doomed)
        ensures p in doomed
      {
        assert p !in more;
      }
    } else {
      assert folders.Keys - (doomed + more) < folders.Keys - doomed by {
        var p :| p in more;
        assert p in folders.Keys - doomed;
      }
      CascadeIsLeastClosure(folders, doomed + more, upper);
      if doomed <= upper && Closed(folders, upper) {
        forall p | p in more
          ensures p in upper
        {
          var q :| q in doomed && q in folders && folders[q].id == folders[p].parent.value;
          assert IsChildOf(folders, p, upper);
        }
      }
    }
  }

  function PruneBooks(t: Tables, started: int): Tables {
    t.(books := map p | p in t.books && t.books[p].seenAt >= started :: t.books[p])
  }

  function StaleFolders(t: Tables, started: int): set<Path> {
    set p | p in t.folders && t.folders[p].seenAt < started
  }

  /** Deletes the stale folders together with every folder and book below them. */
  function PruneFolders(t: Tables, started: int): Tables {
    var gone := Cascade(t.folders, StaleFolders(t, started));
    t.(folders := map p | p in t.folders && p !in gone :: t.folders[p],
       books := map p | p in t.books &&
                    !(exists q :: q in gone && q in t.folders && t.folders[q].id == t.books[p].folder) :: t.books[p])
  }

  // ---------------------------------------------------------------------
  // The tree invariant
  // ---------------------------------------------------------------------

  predicate FolderIds(t: Tables) {
    (forall p :: p in t.folders ==> 0 < t.folders[p].id <= t.lastFolder) &&
    (forall p, q :: p in t.folders && q in t.folders && t.folders[p].id == t.folders[q].id ==> p == q)
  }

  predicate BookIds(t: Tables) {
    (forall p :: p in t.books ==> 0 < t.books[p].id <= t.lastBook) &&
    (forall p, q :: p in t.books && q in t.books && t.books[p].id == t.books[q].id ==> p == q)
  }

  /** A folder's parent row is the row of its directory. */
  predicate FolderLink(t: Tables, p: Path)
    requires p in t.folders
  {
    t.folders[p].parent.Some? ==>
      p != [] && Parent(p) in t.folders && t.folders[Parent(p)].id == t.folders[p].parent.value
  }

  /** A book's folder row is the row of its directory. */
  predicate BookLink(t: Tables, p: Path)
    requires p in t.books
  {
    p != [] && Parent(p) in t.folders && t.folders[Parent(p)].id == t.books[p].folder
  }

  predicate Links(t: Tables) {
    (forall p :: p in t.folders ==> FolderLink(t, p)) &&
    (forall p :: p in t.books ==> BookLink(t, p))
  }

  predicate SlugsUnique(t: Tables) {
    forall p, q :: p in t.folders && q in t.folders && t.folders[p].slug == t.folders[q].slug ==> p == q
  }

  predicate Wellformed(t: Tables) {
    0 <= t.lastFolder && 0 <= t.lastBook && FolderIds(t) && BookIds(t) && Links(t) && SlugsUnique(t)
  }

  /** `p` gets a row with its old id, or with the next fresh id. */
  predicate FreshOrSame(present: bool, oldId: int, last: int, id: int, last': int) {
    if present then id == oldId && last' == last else id == last' == last + 1
  }

  lemma PutFolderKeepsIds(t: Tables, p: Path, row: Folder, last: int)
    requires Wellformed(t)
    requires FreshOrSame(p in t.folders, if p in t.folders then t.folders[p].id else 0, t.lastFolder, row.id, last)
    ensures 0 <= last && FolderIds(t.(folders := t.folders[p := row], lastFolder := last))
  {
  }

  lemma PutFolderKeepsLinks(t: Tables, p: Path, row: Folder, last: int)
    requires Links(t) && (p in t.folders ==> row.id == t.folders[p].id)
    requires row.parent.Some? ==>
               p != [] && Parent(p) in t.folders && t.folders[Parent(p)].id == row.parent.value
    ensures Links(t.(folders := t.folders[p := row], lastFolder := last))
  {
    var t' := t.(folders := t.folders[p := row], lastFolder := last);
    forall q | q in t'.folders
      ensures FolderLink(t', q)
    {
      assert q != p ==> FolderLink(t, q);
    }
    forall q | q in t'.books
      ensures BookLink(t', q)
    {
      assert BookLink(t, q);
    }
  }

  lemma PutFolderKeepsTree(t: Tables, p: Path, row: Folder, last: int)
    requires Wellformed(t) && !SlugTaken(t, p, row.slug)
    requires FreshOrSame(p in t.folders, if p in t.folders then t.folders[p].id else 0, t.lastFolder, row.id, last)
    requires row.parent.Some? ==>
               p != [] && Parent(p) in t.folders && t.folders[Parent(p)].id == row.parent.value
    ensures Wellformed(t.(folders := t.folders[p := row], lastFolder := last))
  {
    PutFolderKeepsIds(t, p, row, last);
    PutFolderKeepsLinks(t, p, row, last);
    var t' := t.(folders := t.folders[p := row], lastFolder := last);
    forall q | q in t'.folders && q != p
      ensures t'.folders[q].slug != row.slug
    {
      assert q in t.folders;
    }
  }

  lemma PutBookKeepsTree(t: Tables, p: Path, row: Book, last: int)
    requires Wellformed(t)
    requires FreshOrSame(p in t.books, if p in t.books then t.books[p].id else 0, t.lastBook, row.id, last)
    requires p != [] && Parent(p) in t.folders && t.folders[Parent(p)].id == row.folder
    ensures Wellformed(t.(books := t.books[p := row], lastBook := last))
  {
    var t' := t.(books := t.books[p := row], lastBook := last);
    assert BookIds(t');
    forall q | q in t'.folders
      ensures FolderLink(t', q)
    {
      assert FolderLink(t, q);
    }
    forall q | q in t'.books
      ensures BookLink(t', q)
    {
      assert q != p ==> BookLink(t, q);
    }
  }

  /** What one folder upsert leaves behind: nothing on failure, otherwise exactly
      the refreshed row of `p`, with its id kept if it had one. */
  predicate FolderWritten(c: Config, t: Tables, t': Tables, p: Path, parent: Option<int>,
                          override: Option<string>, info: DirInfo, id: Option<int>)
  {
    if id.None? then t' == t
    else
      && p !in c.faults && !SlugTaken(t, p, c.slug(p))
      && FreshOrSame(p in t.folders, if p in t.folders then t.folders[p].id else 0,
                     t.lastFolder, id.value, t'.lastFolder)
      && t'.books == t.books && t'.lastBook == t.lastBook
      && t'.folders == t.folders[p := FolderRow(c, p, id.value, parent, override, info,
                                        if p in t.folders then t.folders[p].coverVersion else None)]
  }

  /** Writing a folder row under its directory's row keeps the tree. */
  lemma UpsertFolderKeepsTree(c: Config, t: Tables, p: Path, parent: Option<int>, override: Option<string>,
                              info: DirInfo)
    requires Wellformed(t)
    requires parent.Some? ==> p != [] && Parent(p) in t.folders && t.folders[Parent(p)].id == parent.value
    ensures var (t', id) := UpsertFolder(c, t, p, parent, override, info);
            Wellformed(t') && FolderWritten(c, t, t', p, parent, override, info, id) &&
            (id.None? ==> p in c.faults || SlugTaken(t, p, c.slug(p)))
  {
    var (t', id) := UpsertFolder(c, t, p, parent, override, info);
    if id.Some? {
      PutFolderKeepsTree(t, p, t'.folders[p], t'.lastFolder);
    }
  }

  predicate BookWritten(c: Config, t: Tables, t': Tables, p: Path, folder: int, info: FileInfo)
    requires p != []
  {
    if BookOutcome(c, t, p, info) != Stamped then t' == t
    else
      && t'.folders == t.folders && t'.lastFolder == t.lastFolder && p in t'.books
      && FreshOrSame(p in t.books, if p in t.books then t.books[p].id else 0,
                     t.lastBook, t'.books[p].id, t'.lastBook)
      && t'.books == t.books[p := BookAfter(c, t, p, folder, info, t'.books[p].id)]
  }

  lemma UpsertBookKeepsTree(c: Config, t: Tables, p: Path, folder: int, info: FileInfo)
    requires Wellformed(t)
    requires p != [] && Parent(p) in t.folders && t.folders[Parent(p)].id == folder
    ensures var (t', o) := UpsertBook(c, t, p, folder, info);
            Wellformed(t') && o == BookOutcome(c, t, p, info) && BookWritten(c, t, t', p, folder, info)
  {
    assert FolderIdExists(t, folder);
    var (t', o) := UpsertBook(c, t, p, folder, info);
    if o == Stamped {
      PutBookKeepsTree(t, p, t'.books[p], t'.lastBook);
    }
  }

  lemma PruneBooksKeepsTree(t: Tables, started: int)
    requires Wellformed(t)
    ensures Wellformed(PruneBooks(t, started))
  {
    var t' := PruneBooks(t, started);
    forall q | q in t'.folders
      ensures FolderLink(t', q)
    {
      assert FolderLink(t, q);
    }
    forall q | q in t'.books
      ensures BookLink(t', q)
    {
      assert BookLink(t, q);
    }
  }

  /** The cascade leaves no dangling reference. */
  lemma PruneFoldersKeepsTree(t: Tables, started: int)
    requires Wellformed(t)
    ensures Wellformed(PruneFolders(t, started))
  {
    var t' := PruneFolders(t, started);
    var gone := Cascade(t.folders, StaleFolders(t, started));
    CascadeIsLeastClosure(t.folders, StaleFolders(t, started), {});
    forall q | q in t'.folders
      ensures FolderLink(t', q)
    {
      assert FolderLink(t, q);
      if t.folders[q].parent.Some? {
        assert Parent(q) in gone ==> IsChildOf(t.folders, q, gone);
      }
    }
    forall q | q in t'.books
      ensures BookLink(t', q)
    {
      assert BookLink(t, q);
    }
  }

  /** Writing cover tokens touches no other column. */
  function SetCoverVersions(t: Tables, versions: map<Path, Option<string>>): Tables {
    t.(folders := map p | p in t.folders ::
         if p in versions then t.folders[p].(coverVersion := versions[p]) else t.folders[p])
  }

  lemma SetCoverVersionsKeepsTree(t: Tables, versions: map<Path, Option<string>>)
    requires Wellformed(t)
    ensures Wellformed(SetCoverVersions(t, versions))
  {
    var t' := SetCoverVersions(t, versions);
    forall q | q in t'.folders
      ensures FolderLink(t', q)
    {
      assert FolderLink(t, q);
    }
    forall q | q in t'.books
      ensures BookLink(t', q)
    {
      assert BookLink(t, q);
    }
  }
}
