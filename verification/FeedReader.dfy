/** A reader for the feeds of src/opds.rs: whatever was printed can be recovered. */
module FeedReader {
  import opened Wrappers
  import opened Text
  import opened Template
  import opened Opds

  datatype FolderView = FolderView(
    slug: string, title: string, updated: string, summary: Option<string>, version: Option<string>)

  datatype BookView = BookView(hash: string, title: string, updated: string, pages: int, mime: string, size: int)

  function ReadInt(s: string): Option<int> {
    var d := if s != [] && s[0] == '-' then s[1..] else s;
    if d == [] || !AllDigits(d) then None
    else
      var n: int := DecValue(d);
      Some(if s[0] == '-' then -n else n)
  }

  /** The query string of a cover link. */
  function ReadQuery(q: string): Option<string> {
    if |q| >= 3 && q[..3] == ['?', 'v', '='] then Some(Unescape(q[3..])) else None
  }

  /** Reads the arguments of consecutive lines of the given kinds. */
  function ReadLines(forms: Forms, kinds: seq<Kind>, text: string): Option<(seq<seq<string>>, string)> {
    if kinds == [] then Some(([], text))
    else
      var (v, t) :- Scan(forms(kinds[0]), text);
      var (vs, rest) :- ReadLines(forms, kinds[1..], t);
      Some(([v] + vs, rest))
  }

  /** Argument `j` of line `i`. */
  function Arg(vs: seq<seq<string>>, i: nat, j: nat): string {
    if i < |vs| && j < |vs[i]| then vs[i][j] else []
  }

  const FOLDER_TOP: seq<Kind> := [EntryOpen, FolderId, Title, Updated]
  const FOLDER_REST: seq<Kind> := [FolderCover, Subsection, EntryClose]
  const BOOK_TOP: seq<Kind> := [EntryOpen, BookId, Title, Updated]
  const BOOK_LINKS: seq<Kind> := [BookCover, BookThumb, BookStream]
  const BOOK_END: seq<Kind> := [BookFile, EntryClose]
  const HEAD_TOP: seq<Kind> := [XmlDecl, FeedOpen, FeedId, FeedTitle, FeedUpdated, FeedAuthor]
  const HEAD_LINKS: seq<Kind> := [LinkSelf, LinkStart, LinkSearch]

  /** An optional line with one argument. */
  function ReadOptional(forms: Forms, kind: Kind, text: string): (Option<string>, string) {
    var s := Scan(forms(kind), text);
    if s.None? then (None, text) else (Some(Unescape(Arg([s.value.0], 0, 0))), s.value.1)
  }

  function ReadFolder(forms: Forms, text: string): Option<(FolderView, string)> {
    var (a, t1) :- ReadLines(forms, FOLDER_TOP, text);
    var (summary, t2) := ReadOptional(forms, Summary, t1);
    var (b, t3) :- ReadLines(forms, FOLDER_REST, t2);
    Some((FolderView(Arg(a, 1, 0), Unescape(Arg(a, 2, 0)), Arg(a, 3, 0), summary, ReadQuery(Arg(b, 0, 1))), t3))
  }

  function BookFrom(a: seq<seq<string>>, b: seq<seq<string>>, c: seq<seq<string>>): Option<BookView> {
    var pages :- ReadInt(Arg(b, 2, 1));
    var size :- ReadInt(Arg(c, 0, 2));
    Some(BookView(Unescape(Arg(a, 1, 0)), Unescape(Arg(a, 2, 0)), Arg(a, 3, 0), pages, Arg(c, 0, 1), size))
  }

  function ReadBook(forms: Forms, text: string): Option<(BookView, string)> {
    var (a, t1) :- ReadLines(forms, BOOK_TOP, text);
    var (b, t2) :- ReadLines(forms, BOOK_LINKS, t1);
    var (c, t3) :- ReadLines(forms, BOOK_END, t2);
    var book :- BookFrom(a, b, c);
    Some((book, t3))
  }

  /** Reads entries as long as the text shortens. */
  function ReadAll<T>(read: string -> Option<(T, string)>, text: string): (seq<T>, string)
    decreases |text|
  {
    var r := read(text);
    if r.None? || |r.value.1| >= |text| then ([], text)
    else
      var (more, rest) := ReadAll(read, r.value.1);
      ([r.value.0] + more, rest)
  }

  datatype HeadView = HeadView(
    id: string, title: string, updated: string, self_: string, selfType: string, up: Option<string>)

  datatype FeedView = FeedView(head: HeadView, folders: seq<FolderView>, books: seq<BookView>)

  function HeadFrom(a: seq<seq<string>>, b: seq<seq<string>>, up: Option<string>): HeadView {
    HeadView(Unescape(Arg(a, 2, 0)), Unescape(Arg(a, 3, 0)), Arg(a, 4, 0),
             Unescape(Arg(b, 0, 0)), Arg(b, 0, 1), up)
  }

  function ReadHead(forms: Forms, text: string): Option<(HeadView, string)> {
    var (a, t1) :- ReadLines(forms, HEAD_TOP, text);
    var (b, t2) :- ReadLines(forms, HEAD_LINKS, t1);
    var (up, t3) := ReadOptional(forms, LinkUp, t2);
    Some((HeadFrom(a, b, up), t3))
  }

  function FolderReader(forms: Forms): string -> Option<(FolderView, string)> {
    t => ReadFolder(forms, t)
  }

  function BookReader(forms: Forms): string -> Option<(BookView, string)> {
    t => ReadBook(forms, t)
  }

  function ReadFeed(forms: Forms, text: string): Option<FeedView> {
    var (head, t1) :- ReadHead(forms, text);
    var (folders, t2) := ReadAll(FolderReader(forms), t1);
    var (books, t3) := ReadAll(BookReader(forms), t2);
    var (_, t4) :- Scan(forms(FeedClose), t3);
    if t4 != [] then None else Some(FeedView(head, folders, books))
  }

  // ---------------------------------------------------------------------
  // Reading lines
  // ---------------------------------------------------------------------

  lemma ReadsLine(forms: Forms, line: Line, rest: string)
    requires Readable(forms) && line.Ok()
    ensures Scan(forms(line.kind), Rendered(forms, line) + rest) == Some((line.values, rest))
    ensures Rendered(forms, line) != []
  {
    var shape := forms(line.kind);
    assert FormFits(forms, line.kind);
    CleanByStops(shape, line.values);
    ScanUndoesFill(shape, line.values, rest);
  }

  function KindsOf(lines: seq<Line>): (r: seq<Kind>)
    ensures |r| == |lines| && forall i :: 0 <= i < |lines| ==> r[i] == lines[i].kind
  {
    seq(|lines|, i requires 0 <= i < |lines| => lines[i].kind)
  }

  function ValuesOf(lines: seq<Line>): (r: seq<seq<string>>)
    ensures |r| == |lines| && forall i :: 0 <= i < |lines| ==> r[i] == lines[i].values
  {
    seq(|lines|, i requires 0 <= i < |lines| => lines[i].values)
  }

  lemma {:induction false} ReadsLines(forms: Forms, lines: seq<Line>, rest: string)
    requires Readable(forms) && AllOk(lines)
    ensures ReadLines(forms, KindsOf(lines), Doc(forms, lines) + rest) == Some((ValuesOf(lines), rest))
    ensures lines != [] ==> Doc(forms, lines) != []
  {
    if lines == [] {
      assert Doc(forms, lines) + rest == rest;
    } else {
      var head, tail := lines[0], lines[1..];
      ReadsLines(forms, tail, rest);
      ReadsLine(forms, head, Doc(forms, tail) + rest);
      ConcatAssoc(Rendered(forms, head), Doc(forms, tail), rest);
      assert KindsOf(lines)[0] == head.kind && KindsOf(lines)[1..] == KindsOf(tail);
      assert ValuesOf(lines) == [head.values] + ValuesOf(tail);
    }
  }

  /** A line of a clashing kind is not read. */
  lemma ClashFails(forms: Forms, kind: Kind, line: Line, rest: string)
    requires Readable(forms) && line.Ok() && Alternatives(kind, line.kind)
    ensures Scan(forms(kind), Rendered(forms, line) + rest) == None
  {
    var a, b := forms(kind), forms(line.kind);
    var i :| 0 <= i < |a[0].text| && i < |b[0].text| && a[0].text[i] != b[0].text[i];
    assert FormFits(forms, line.kind);
    var lit, more := b[0].text, Fill(b[1..], line.values);
    assert Rendered(forms, line) == lit + more;
    ConcatAssoc(lit, more, rest);
    var text := Rendered(forms, line) + rest;
    assert text == lit + (more + rest) && text[i] == lit[i];
    if |a[0].text| <= |text| {
      assert text[..|a[0].text|][i] == text[i];
    }
  }

  // ---------------------------------------------------------------------
  // Reading entries
  // ---------------------------------------------------------------------

  lemma ReadIntOfShow(n: int)
    ensures ReadInt(Show(n)) == Some(n)
  {
    DecimalReadsBack(if n < 0 then -n else n);
    if n < 0 {
      assert Show(n)[1..] == Decimal(-n);
    }
  }

  lemma ReadQueryOfCover(v: Option<string>)
    ensures ReadQuery(CoverQuery(v)) == v
  {
    if v.Some? {
      var q := CoverQuery(v);
      assert q[..3] == ['?', 'v', '='] && q[3..] == Esc(v.value);
      UnescapeUndoesEsc(v.value);
    }
  }

  /** Hashes and slugs are printed in lower-case hexadecimal. */
  predicate Hex(s: string) {
    forall i :: 0 <= i < |s| ==> '0' <= s[i] <= '9' || 'a' <= s[i] <= 'f'
  }

  lemma HexIsPlain(s: string)
    requires Hex(s)
    ensures '/' !in s && '<' !in s && '"' !in s && '&' !in s
  {
  }

  lemma {:induction false} HexIsUnchanged(s: string)
    requires Hex(s)
    ensures Esc(s) == s
  {
    if s != [] {
      HexIsUnchanged(s[1..]);
      assert s == [s[0]] + s[1..];
    }
  }

  lemma ShowIsPlain(n: int)
    ensures '"' !in Show(n)
  {
    DecimalReadsBack(if n < 0 then -n else n);
  }

  lemma QueryIsPlain(v: Option<string>)
    ensures '"' !in CoverQuery(v)
  {
    if v.Some? {
      EscIsClean(v.value);
    }
  }

  /** The folder entry a reader should see. */
  function FolderSeen(stamp: Stamp, f: FolderItem): FolderView {
    FolderView(f.slug, f.name, stamp(f.mtime), f.description, f.coverVersion)
  }

  function BookSeen(stamp: Stamp, b: BookItem): BookView {
    BookView(b.hash, b.name, stamp(if b.addedAt > b.mtime then b.addedAt else b.mtime), b.pageCount,
             if b.format in {"cbz", "zip"} then "application/vnd.comicbook+zip"
             else if b.format in {"cbr", "rar"} then "application/vnd.comicbook-rar"
             else "application/octet-stream",
             b.fileSize)
  }

  ghost predicate StampsClean(stamp: Stamp) {
    forall n :: '<' !in stamp(n)
  }

  lemma OneOk(kind: Kind, c: char, v: string)
    requires Stops(kind) == [c] && c !in v
    ensures Line(kind, [v]).Ok()
  {
  }

  lemma FolderTopOk(stamp: Stamp, f: FolderItem)
    requires StampsClean(stamp) && Hex(f.slug)
    ensures AllOk(FolderTop(stamp, f))
  {
    HexIsPlain(f.slug);
    EscIsClean(f.name);
    OneOk(FolderId, '<', f.slug);
    OneOk(Title, '<', Esc(f.name));
    OneOk(Updated, '<', stamp(f.mtime));
  }

  lemma FolderSummaryOk(f: FolderItem)
    ensures AllOk(FolderSummary(f))
  {
    if f.description.Some? {
      EscIsClean(f.description.value);
      assert FolderSummary(f)[0].Ok();
    }
  }

  lemma FolderRestOk(f: FolderItem)
    requires Hex(f.slug)
    ensures AllOk(FolderRest(f))
  {
    HexIsPlain(f.slug);
    QueryIsPlain(f.coverVersion);
    var lines := FolderRest(f);
    assert lines[0].Ok() && lines[1].Ok();
  }

  lemma DocOfThree(forms: Forms, x: seq<Line>, y: seq<Line>, z: seq<Line>, rest: string)
    ensures Doc(forms, x + (y + z)) + rest == Doc(forms, x) + (Doc(forms, y) + (Doc(forms, z) + rest))
  {
    DocConcat(forms, x, y + z);
    DocConcat(forms, y, z);
    ConcatAssoc(Doc(forms, x), Doc(forms, y + z), rest);
    ConcatAssoc(Doc(forms, y), Doc(forms, z), rest);
  }

  /** The optional summary is read exactly when it was printed. */
  lemma ReadsSummary(forms: Forms, f: FolderItem, rest: string)
    requires Readable(forms) && AllOk(FolderSummary(f)) && AllOk(FolderRest(f))
    ensures var t := Doc(forms, FolderRest(f)) + rest;
            ReadOptional(forms, Summary, Doc(forms, FolderSummary(f)) + t) == (f.description, t)
  {
    assert FolderRest(f)[0].Ok();
    ReadsAbsent(forms, Summary, FolderRest(f), rest);
    ReadsOptional(forms, Summary, FolderSummary(f), f.description, Doc(forms, FolderRest(f)) + rest);
  }

  lemma ReadsPresent(forms: Forms, kind: Kind, v: string, t: string)
    requires Readable(forms) && Line(kind, [Esc(v)]).Ok()
    ensures ReadOptional(forms, kind, Doc(forms, [Line(kind, [Esc(v)])]) + t) == (Some(v), t)
  {
    var line := Line(kind, [Esc(v)]);
    assert [line][1..] == [];
    assert Doc(forms, [line]) == Rendered(forms, line);
    ReadsLine(forms, line, t);
    UnescapeUndoesEsc(v);
  }

  lemma ReadsAbsent(forms: Forms, kind: Kind, more: seq<Line>, rest: string)
    requires Readable(forms) && more != [] && more[0].Ok() && Alternatives(kind, more[0].kind)
    ensures Scan(forms(kind), Doc(forms, more) + rest) == None
  {
    ClashFails(forms, kind, more[0], Doc(forms, more[1..]) + rest);
    ConcatAssoc(Rendered(forms, more[0]), Doc(forms, more[1..]), rest);
  }

  /** An optional line is read exactly when it was printed, if what follows cannot be mistaken for it. */
  lemma ReadsOptional(forms: Forms, kind: Kind, lines: seq<Line>, v: Option<string>, t: string)
    requires Readable(forms) && AllOk(lines) && Scan(forms(kind), t) == None
    requires lines == if v.Some? then [Line(kind, [Esc(v.value)])] else []
    ensures ReadOptional(forms, kind, Doc(forms, lines) + t) == (v, t)
  {
    if v.Some? {
      assert lines[0].Ok();
      ReadsPresent(forms, kind, v.value, t);
    } else {
      assert Doc(forms, lines) + t == t;
    }
  }

  lemma ReadsFolderTop(forms: Forms, stamp: Stamp, f: FolderItem, t: string)
    requires Readable(forms) && AllOk(FolderTop(stamp, f))
    ensures ReadLines(forms, FOLDER_TOP, Doc(forms, FolderTop(stamp, f)) + t) ==
            Some(([[], [f.slug], [Esc(f.name)], [stamp(f.mtime)]], t))
    ensures Doc(forms, FolderTop(stamp, f)) != []
  {
    ReadsLines(forms, FolderTop(stamp, f), t);
    assert KindsOf(FolderTop(stamp, f)) == FOLDER_TOP;
    assert ValuesOf(FolderTop(stamp, f)) == [[], [f.slug], [Esc(f.name)], [stamp(f.mtime)]];
  }

  lemma ReadsFolderRest(forms: Forms, f: FolderItem, t: string)
    requires Readable(forms) && AllOk(FolderRest(f))
    ensures ReadLines(forms, FOLDER_REST, Doc(forms, FolderRest(f)) + t) ==
            Some(([[f.slug, CoverQuery(f.coverVersion)], [f.slug], []], t))
  {
    ReadsLines(forms, FolderRest(f), t);
    assert KindsOf(FolderRest(f)) == FOLDER_REST;
    assert ValuesOf(FolderRest(f)) == [[f.slug, CoverQuery(f.coverVersion)], [f.slug], []];
  }

  lemma ReadsFolder(forms: Forms, stamp: Stamp, f: FolderItem, rest: string)
    requires Readable(forms) && StampsClean(stamp) && Hex(f.slug)
    ensures ReadFolder(forms, Doc(forms, FolderLines(stamp, f)) + rest) == Some((FolderSeen(stamp, f), rest))
    ensures Doc(forms, FolderLines(stamp, f)) != []
  {
    FolderTopOk(stamp, f);
    FolderSummaryOk(f);
    FolderRestOk(f);
    DocOfThree(forms, FolderTop(stamp, f), FolderSummary(f), FolderRest(f), rest);
    DocConcat(forms, FolderTop(stamp, f), FolderSummary(f) + FolderRest(f));
    var t2 := Doc(forms, FolderRest(f)) + rest;
    ReadsFolderTop(forms, stamp, f, Doc(forms, FolderSummary(f)) + t2);
    ReadsSummary(forms, f, rest);
    ReadsFolderRest(forms, f, rest);
    UnescapeUndoesEsc(f.name);
    ReadQueryOfCover(f.coverVersion);
  }

  lemma BookTopOk(stamp: Stamp, b: BookItem)
    requires StampsClean(stamp)
    ensures AllOk(BookTop(stamp, b))
  {
    EscIsClean(b.hash);
    EscIsClean(b.name);
    OneOk(BookId, '<', Esc(b.hash));
    OneOk(Title, '<', Esc(b.name));
    OneOk(Updated, '<', stamp(if b.addedAt > b.mtime then b.addedAt else b.mtime));
  }

  lemma HashLineOk(kind: Kind, h: string)
    requires Hex(h) && Stops(kind) == ['/']
    ensures Line(kind, [Esc(h)]).Ok()
  {
    HexIsUnchanged(h);
    HexIsPlain(h);
  }

  lemma StreamLineOk(b: BookItem)
    requires Hex(b.hash)
    ensures Line(BookStream, [Esc(b.hash), Show(b.pageCount)]).Ok()
  {
    HexIsUnchanged(b.hash);
    HexIsPlain(b.hash);
    ShowIsPlain(b.pageCount);
  }

  lemma BookLinksOk(b: BookItem)
    requires Hex(b.hash)
    ensures AllOk(BookLinks(b))
  {
    HashLineOk(BookCover, b.hash);
    HashLineOk(BookThumb, b.hash);
    StreamLineOk(b);
  }

  lemma BookEndOk(b: BookItem)
    requires Hex(b.hash)
    ensures AllOk(BookEnd(b))
  {
    HexIsUnchanged(b.hash);
    HexIsPlain(b.hash);
    ShowIsPlain(b.fileSize);
    MimeIsPlain(b.format);
    FileLineOk(Esc(b.hash), BookMime(b.format), Show(b.fileSize));
  }

  lemma FileLineOk(hash: string, mime: string, size: string)
    requires '/' !in hash && '"' !in mime && '"' !in size
    ensures Line(BookFile, [hash, mime, size]).Ok()
  {
  }

  lemma MimeIsPlain(format: string)
    ensures '"' !in BookMime(format)
  {
  }

  lemma ReadsBookTop(forms: Forms, stamp: Stamp, b: BookItem, t: string)
    requires Readable(forms) && AllOk(BookTop(stamp, b))
    ensures ReadLines(forms, BOOK_TOP, Doc(forms, BookTop(stamp, b)) + t) ==
            Some(([[], [Esc(b.hash)], [Esc(b.name)], [stamp(if b.addedAt > b.mtime then b.addedAt else b.mtime)]], t))
    ensures Doc(forms, BookTop(stamp, b)) != []
  {
    ReadsLines(forms, BookTop(stamp, b), t);
    assert KindsOf(BookTop(stamp, b)) == BOOK_TOP;
    assert ValuesOf(BookTop(stamp, b)) ==
           [[], [Esc(b.hash)], [Esc(b.name)], [stamp(if b.addedAt > b.mtime then b.addedAt else b.mtime)]];
  }

  lemma ReadsBookLinks(forms: Forms, b: BookItem, t: string)
    requires Readable(forms) && AllOk(BookLinks(b))
    ensures ReadLines(forms, BOOK_LINKS, Doc(forms, BookLinks(b)) + t) ==
            Some(([[Esc(b.hash)], [Esc(b.hash)], [Esc(b.hash), Show(b.pageCount)]], t))
  {
    ReadsLines(forms, BookLinks(b), t);
    assert KindsOf(BookLinks(b)) == BOOK_LINKS;
    assert ValuesOf(BookLinks(b)) == [[Esc(b.hash)], [Esc(b.hash)], [Esc(b.hash), Show(b.pageCount)]];
  }

  lemma ReadsBookEnd(forms: Forms, b: BookItem, t: string)
    requires Readable(forms) && AllOk(BookEnd(b))
    ensures ReadLines(forms, BOOK_END, Doc(forms, BookEnd(b)) + t) ==
            Some(([[Esc(b.hash), BookMime(b.format), Show(b.fileSize)], []], t))
  {
    ReadsLines(forms, BookEnd(b), t);
    assert KindsOf(BookEnd(b)) == BOOK_END;
    assert ValuesOf(BookEnd(b)) == [[Esc(b.hash), BookMime(b.format), Show(b.fileSize)], []];
  }

  lemma BookFromArgs(stamp: Stamp, b: BookItem)
    ensures BookFrom([[], [Esc(b.hash)], [Esc(b.name)], [stamp(if b.addedAt > b.mtime then b.addedAt else b.mtime)]],
                     [[Esc(b.hash)], [Esc(b.hash)], [Esc(b.hash), Show(b.pageCount)]],
                     [[Esc(b.hash), BookMime(b.format), Show(b.fileSize)], []]) == Some(BookSeen(stamp, b))
  {
    UnescapeUndoesEsc(b.hash);
    UnescapeUndoesEsc(b.name);
    ReadIntOfShow(b.pageCount);
    ReadIntOfShow(b.fileSize);
    BookArgs(Esc(b.hash), Esc(b.name), stamp(if b.addedAt > b.mtime then b.addedAt else b.mtime),
             Show(b.pageCount), BookMime(b.format), Show(b.fileSize));
  }

  lemma BookArgs(hash: string, name: string, updated: string, pages: string, mime: string, size: string)
    ensures var a := [[], [hash], [name], [updated]];
            Arg(a, 1, 0) == hash && Arg(a, 2, 0) == name && Arg(a, 3, 0) == updated
    ensures Arg([[hash], [hash], [hash, pages]], 2, 1) == pages
    ensures var c := [[hash, mime, size], []]; Arg(c, 0, 1) == mime && Arg(c, 0, 2) == size
  {
  }

  lemma ReadsBook(forms: Forms, stamp: Stamp, b: BookItem, rest: string)
    requires Readable(forms) && StampsClean(stamp) && Hex(b.hash)
    ensures ReadBook(forms, Doc(forms, BookLines(stamp, b)) + rest) == Some((BookSeen(stamp, b), rest))
    ensures Doc(forms, BookLines(stamp, b)) != []
  {
    BookTopOk(stamp, b);
    BookLinksOk(b);
    BookEndOk(b);
    DocOfThree(forms, BookTop(stamp, b), BookLinks(b), BookEnd(b), rest);
    DocConcat(forms, BookTop(stamp, b), BookLinks(b) + BookEnd(b));
    var t2 := Doc(forms, BookEnd(b)) + rest;
    ReadsBookTop(forms, stamp, b, Doc(forms, BookLinks(b)) + t2);
    ReadsBookLinks(forms, b, t2);
    ReadsBookEnd(forms, b, rest);
    BookFromArgs(stamp, b);
  }

  function MapAll<X, T>(seen: X -> T, xs: seq<X>): seq<T> {
    if xs == [] then [] else [seen(xs[0])] + MapAll(seen, xs[1..])
  }

  /** The reader recovers the item from its lines, whatever follows. */
  ghost predicate Recovers<X, T>(forms: Forms, linesOf: X -> seq<Line>, seen: X -> T,
                                 read: string -> Option<(T, string)>, x: X)
  {
    Doc(forms, linesOf(x)) != [] &&
    forall t :: read(Doc(forms, linesOf(x)) + t) == Some((seen(x), t))
  }

  /** Reading entries one after another stops exactly where they end. */
  lemma {:induction false} ReadsAll<X, T>(forms: Forms, linesOf: X -> seq<Line>, seen: X -> T,
                                          read: string -> Option<(T, string)>, xs: seq<X>, rest: string)
    requires forall x :: x in xs ==> Recovers(forms, linesOf, seen, read, x)
    requires read(rest) == None
    ensures ReadAll(read, Doc(forms, Each(linesOf, xs)) + rest) == (MapAll(seen, xs), rest)
    decreases |xs|
  {
    if xs == [] {
      assert Doc(forms, Each(linesOf, xs)) + rest == rest;
    } else {
      var t := Doc(forms, Each(linesOf, xs[1..])) + rest;
      ReadsAll(forms, linesOf, seen, read, xs[1..], rest);
      DocConcat(forms, linesOf(xs[0]), Each(linesOf, xs[1..]));
      var text := Doc(forms, Each(linesOf, xs)) + rest;
      ConcatAssoc(Doc(forms, linesOf(xs[0])), Doc(forms, Each(linesOf, xs[1..])), rest);
      assert xs[0] in xs && Recovers(forms, linesOf, seen, read, xs[0]);
      assert read(text) == Some((seen(xs[0]), t)) && |t| < |text|;
    }
  }

  // ---------------------------------------------------------------------
  // Reading a feed
  // ---------------------------------------------------------------------

  lemma NoFolderAtBook(forms: Forms, stamp: Stamp, b: BookItem, rest: string)
    requires Readable(forms) && StampsClean(stamp) && Hex(b.hash)
    ensures ReadFolder(forms, Doc(forms, BookLines(stamp, b)) + rest) == None
  {
    var lines := BookLines(stamp, b);
    BookTopOk(stamp, b);
    assert lines[0] == BookTop(stamp, b)[0] && lines[1..][0] == BookTop(stamp, b)[1];
    assert BookTop(stamp, b)[0].Ok() && BookTop(stamp, b)[1].Ok();
    var more := Doc(forms, lines[1..]) + rest;
    ReadsLine(forms, lines[0], more);
    ConcatAssoc(Rendered(forms, lines[0]), Doc(forms, lines[1..]), rest);
    ReadsAbsent(forms, FolderId, lines[1..], rest);
    SecondLineFails(forms, FOLDER_TOP, Doc(forms, lines) + rest, more);
  }

  lemma SecondLineFails(forms: Forms, kinds: seq<Kind>, text: string, more: string)
    requires |kinds| >= 2
    requires Scan(forms(kinds[0]), text).Some? ==> Scan(forms(kinds[0]), text).value.1 == more
    requires Scan(forms(kinds[1]), more) == None
    ensures ReadLines(forms, kinds, text) == None
  {
    assert kinds[1..][0] == kinds[1];
  }

  function HeadSeen(ctx: FeedCtx): HeadView {
    HeadView(ctx.feedId, ctx.title, ctx.updated, ctx.selfHref,
             "application/" + "atom+xml;" + "profile=" + "opds-catalog;" +
             if ctx.acquisition then "kind=acquisition" else "kind=navigation",
             ctx.upHref)
  }

  lemma HeadTopOk(ctx: FeedCtx)
    requires '<' !in ctx.updated
    ensures AllOk(HeadTop(ctx))
  {
    EscIsClean(ctx.feedId);
    EscIsClean(ctx.title);
    OneOk(FeedId, '<', Esc(ctx.feedId));
    OneOk(FeedTitle, '<', Esc(ctx.title));
    OneOk(FeedUpdated, '<', ctx.updated);
  }

  lemma TypesArePlain()
    ensures '"' !in ACQ_TYPE && '"' !in NAV_TYPE
  {
    assert '"' !in "application/" && '"' !in "atom+xml;" && '"' !in "profile=" && '"' !in "opds-catalog;";
    assert '"' !in "kind=navigation" && '"' !in "kind=acquisition";
  }

  lemma SelfLinkOk(href: string, kind: string)
    requires '"' !in href && '"' !in kind
    ensures Line(LinkSelf, [href, kind]).Ok()
  {
  }

  lemma HeadLinksOk(ctx: FeedCtx)
    ensures AllOk(HeadLinks(ctx)) && AllOk(HeadUp(ctx))
  {
    EscIsClean(ctx.selfHref);
    TypesArePlain();
    SelfLinkOk(Esc(ctx.selfHref), SelfType(ctx));
    if ctx.upHref.Some? {
      EscIsClean(ctx.upHref.value);
      OneOk(LinkUp, '"', Esc(ctx.upHref.value));
    }
  }

  lemma HeadTopShape(ctx: FeedCtx)
    ensures KindsOf(HeadTop(ctx)) == HEAD_TOP
    ensures ValuesOf(HeadTop(ctx)) == [[], [], [Esc(ctx.feedId)], [Esc(ctx.title)], [ctx.updated], []]
  {
  }

  lemma ReadsHeadTop(forms: Forms, ctx: FeedCtx, t: string)
    requires Readable(forms) && AllOk(HeadTop(ctx))
    ensures ReadLines(forms, HEAD_TOP, Doc(forms, HeadTop(ctx)) + t) ==
            Some(([[], [], [Esc(ctx.feedId)], [Esc(ctx.title)], [ctx.updated], []], t))
  {
    ReadsLines(forms, HeadTop(ctx), t);
    HeadTopShape(ctx);
  }

  lemma ReadsHeadLinks(forms: Forms, ctx: FeedCtx, t: string)
    requires Readable(forms) && AllOk(HeadLinks(ctx))
    ensures ReadLines(forms, HEAD_LINKS, Doc(forms, HeadLinks(ctx)) + t) ==
            Some(([[Esc(ctx.selfHref), SelfType(ctx)], [], []], t))
  {
    ReadsLines(forms, HeadLinks(ctx), t);
    assert KindsOf(HeadLinks(ctx)) == HEAD_LINKS;
    assert ValuesOf(HeadLinks(ctx)) == [[Esc(ctx.selfHref), SelfType(ctx)], [], []];
  }

  lemma HeadFromArgs(ctx: FeedCtx)
    ensures HeadFrom([[], [], [Esc(ctx.feedId)], [Esc(ctx.title)], [ctx.updated], []],
                     [[Esc(ctx.selfHref), SelfType(ctx)], [], []], ctx.upHref) == HeadSeen(ctx)
  {
    UnescapeUndoesEsc(ctx.feedId);
    UnescapeUndoesEsc(ctx.title);
    UnescapeUndoesEsc(ctx.selfHref);
  }

  lemma ReadsHead(forms: Forms, ctx: FeedCtx, t3: string)
    requires Readable(forms) && '<' !in ctx.updated && Scan(forms(LinkUp), t3) == None
    ensures ReadHead(forms, Doc(forms, HeadLines(ctx)) + t3) == Some((HeadSeen(ctx), t3))
  {
    var t2 := Doc(forms, HeadUp(ctx)) + t3;
    var t1 := Doc(forms, HeadLinks(ctx)) + t2;
    DocOfThree(forms, HeadTop(ctx), HeadLinks(ctx), HeadUp(ctx), t3);
    HeadTopOk(ctx);
    ReadsHeadTop(forms, ctx, t1);
    HeadLinksOk(ctx);
    ReadsHeadLinks(forms, ctx, t2);
    ReadsUp(forms, ctx, t3);
    HeadFromArgs(ctx);
  }

  lemma ReadsUp(forms: Forms, ctx: FeedCtx, t: string)
    requires Readable(forms) && Scan(forms(LinkUp), t) == None
    ensures ReadOptional(forms, LinkUp, Doc(forms, HeadUp(ctx)) + t) == (ctx.upHref, t)
  {
    HeadLinksOk(ctx);
    ReadsOptional(forms, LinkUp, HeadUp(ctx), ctx.upHref, t);
  }

  const CLOSE: seq<Line> := [Line(FeedClose, [])]

  lemma NoEntryAtEnd(forms: Forms)
    requires Readable(forms)
    ensures ReadFolder(forms, Doc(forms, CLOSE)) == None && ReadBook(forms, Doc(forms, CLOSE)) == None
    ensures Scan(forms(FeedClose), Doc(forms, CLOSE)) == Some(([], []))
  {
    assert Doc(forms, CLOSE) + [] == Doc(forms, CLOSE);
    ReadsAbsent(forms, EntryOpen, CLOSE, []);
    assert CLOSE[1..] == [];
    ReadsLine(forms, CLOSE[0], []);
    assert Doc(forms, CLOSE) == Rendered(forms, CLOSE[0]) + [];
  }

  ghost predicate Printable(stamp: Stamp, ctx: FeedCtx, fs: seq<FolderItem>, bs: seq<BookItem>) {
    && StampsClean(stamp) && '<' !in ctx.updated
    && (forall f :: f in fs ==> Hex(f.slug)) && (forall b :: b in bs ==> Hex(b.hash))
  }

  lemma EachSplit<X>(forms: Forms, linesOf: X -> seq<Line>, xs: seq<X>, rest: string)
    requires xs != []
    ensures Doc(forms, Each(linesOf, xs)) + rest ==
            Doc(forms, linesOf(xs[0])) + (Doc(forms, Each(linesOf, xs[1..])) + rest)
  {
    var first, others := Doc(forms, linesOf(xs[0])), Doc(forms, Each(linesOf, xs[1..]));
    DocConcat(forms, linesOf(xs[0]), Each(linesOf, xs[1..]));
    assert Doc(forms, Each(linesOf, xs)) == first + others;
    ConcatAssoc(first, others, rest);
  }

  lemma NoUpAtEntry(forms: Forms, lines: seq<Line>, rest: string)
    requires Readable(forms) && lines != [] && lines[0] == Line(EntryOpen, [])
    ensures Scan(forms(LinkUp), Doc(forms, lines) + rest) == None
  {
    ReadsAbsent(forms, LinkUp, lines, rest);
  }

  lemma NoUpAtEnd(forms: Forms)
    requires Readable(forms)
    ensures Scan(forms(LinkUp), Doc(forms, CLOSE)) == None
  {
    ReadsAbsent(forms, LinkUp, CLOSE, []);
    assert Doc(forms, CLOSE) + [] == Doc(forms, CLOSE);
  }

  lemma NoUpInBooks(forms: Forms, stamp: Stamp, bs: seq<BookItem>)
    requires Readable(forms)
    ensures Scan(forms(LinkUp), Doc(forms, AllBookLines(stamp, bs)) + Doc(forms, CLOSE)) == None
  {
    if bs == [] {
      NoUpAtEnd(forms);
      assert Doc(forms, AllBookLines(stamp, bs)) + Doc(forms, CLOSE) == Doc(forms, CLOSE);
    } else {
      var linesOf := (b: BookItem) => BookLines(stamp, b);
      EachSplit(forms, linesOf, bs, Doc(forms, CLOSE));
      NoUpAtEntry(forms, linesOf(bs[0]), Doc(forms, Each(linesOf, bs[1..])) + Doc(forms, CLOSE));
    }
  }

  lemma NoUpInBody(forms: Forms, stamp: Stamp, fs: seq<FolderItem>, bs: seq<BookItem>)
    requires Readable(forms)
    ensures var books := Doc(forms, AllBookLines(stamp, bs)) + Doc(forms, CLOSE);
            Scan(forms(LinkUp), Doc(forms, AllFolderLines(stamp, fs)) + books) == None
  {
    var books := Doc(forms, AllBookLines(stamp, bs)) + Doc(forms, CLOSE);
    if fs == [] {
      NoUpInBooks(forms, stamp, bs);
      assert Doc(forms, AllFolderLines(stamp, fs)) + books == books;
    } else {
      var linesOf := (f: FolderItem) => FolderLines(stamp, f);
      EachSplit(forms, linesOf, fs, books);
      NoUpAtEntry(forms, linesOf(fs[0]), Doc(forms, Each(linesOf, fs[1..])) + books);
    }
  }

  lemma ReadsFolders(forms: Forms, stamp: Stamp, fs: seq<FolderItem>, rest: string)
    requires Readable(forms) && StampsClean(stamp) && (forall f :: f in fs ==> Hex(f.slug))
    requires ReadFolder(forms, rest) == None
    ensures ReadAll(FolderReader(forms), Doc(forms, AllFolderLines(stamp, fs)) + rest) ==
            (MapAll(f => FolderSeen(stamp, f), fs), rest)
  {
    var linesOf := (f: FolderItem) => FolderLines(stamp, f);
    var seen := (f: FolderItem) => FolderSeen(stamp, f);
    forall f | f in fs
      ensures Recovers(forms, linesOf, seen, FolderReader(forms), f)
    {
      forall t
        ensures FolderReader(forms)(Doc(forms, linesOf(f)) + t) == Some((seen(f), t))
        ensures Doc(forms, linesOf(f)) != []
      {
        ReadsFolder(forms, stamp, f, t);
      }
      ReadsFolder(forms, stamp, f, []);
    }
    ReadsAll(forms, linesOf, seen, FolderReader(forms), fs, rest);
  }

  lemma ReadsBooks(forms: Forms, stamp: Stamp, bs: seq<BookItem>, rest: string)
    requires Readable(forms) && StampsClean(stamp) && (forall b :: b in bs ==> Hex(b.hash))
    requires ReadBook(forms, rest) == None
    ensures ReadAll(BookReader(forms), Doc(forms, AllBookLines(stamp, bs)) + rest) ==
            (MapAll(b => BookSeen(stamp, b), bs), rest)
  {
    var linesOf := (b: BookItem) => BookLines(stamp, b);
    var seen := (b: BookItem) => BookSeen(stamp, b);
    forall b | b in bs
      ensures Recovers(forms, linesOf, seen, BookReader(forms), b)
    {
      forall t
        ensures BookReader(forms)(Doc(forms, linesOf(b)) + t) == Some((seen(b), t))
        ensures Doc(forms, linesOf(b)) != []
      {
        ReadsBook(forms, stamp, b, t);
      }
      ReadsBook(forms, stamp, b, []);
    }
    ReadsAll(forms, linesOf, seen, BookReader(forms), bs, rest);
  }

  lemma NoFolderInBooks(forms: Forms, stamp: Stamp, bs: seq<BookItem>)
    requires Readable(forms) && StampsClean(stamp) && (forall b :: b in bs ==> Hex(b.hash))
    ensures ReadFolder(forms, Doc(forms, AllBookLines(stamp, bs)) + Doc(forms, CLOSE)) == None
  {
    if bs == [] {
      NoEntryAtEnd(forms);
      assert Doc(forms, AllBookLines(stamp, bs)) + Doc(forms, CLOSE) == Doc(forms, CLOSE);
    } else {
      var linesOf := (b: BookItem) => BookLines(stamp, b);
      EachSplit(forms, linesOf, bs, Doc(forms, CLOSE));
      NoFolderAtBook(forms, stamp, bs[0], Doc(forms, Each(linesOf, bs[1..])) + Doc(forms, CLOSE));
    }
  }

  function FeedSeen(stamp: Stamp, ctx: FeedCtx, fs: seq<FolderItem>, bs: seq<BookItem>): FeedView {
    FeedView(HeadSeen(ctx), MapAll(f => FolderSeen(stamp, f), fs), MapAll(b => BookSeen(stamp, b), bs))
  }

  lemma FeedFromParts(forms: Forms, text: string, head: HeadView, t1: string,
                      folders: seq<FolderView>, t2: string, books: seq<BookView>, t3: string)
    requires ReadHead(forms, text) == Some((head, t1))
    requires ReadAll(FolderReader(forms), t1) == (folders, t2)
    requires ReadAll(BookReader(forms), t2) == (books, t3)
    requires Scan(forms(FeedClose), t3) == Some(([], []))
    ensures ReadFeed(forms, text) == Some(FeedView(head, folders, books))
  {
  }

  /** Whatever the names, descriptions and links contain, the printed feed reads back
      to the same head and the same folder and book entries in the same order. */
  lemma FeedIsRecoverable(forms: Forms, stamp: Stamp, ctx: FeedCtx, fs: seq<FolderItem>, bs: seq<BookItem>)
    requires Readable(forms) && Printable(stamp, ctx, fs, bs)
    ensures ReadFeed(forms, FeedText(forms, stamp, ctx, fs, bs)) == Some(FeedSeen(stamp, ctx, fs, bs))
  {
    var t2 := Doc(forms, AllBookLines(stamp, bs)) + Doc(forms, CLOSE);
    var t1 := Doc(forms, AllFolderLines(stamp, fs)) + t2;
    NoUpInBody(forms, stamp, fs, bs);
    ReadsHead(forms, ctx, t1);
    NoFolderInBooks(forms, stamp, bs);
    ReadsFolders(forms, stamp, fs, t2);
    NoEntryAtEnd(forms);
    ReadsBooks(forms, stamp, bs, Doc(forms, CLOSE));
    FeedFromParts(forms, FeedText(forms, stamp, ctx, fs, bs), HeadSeen(ctx), t1,
                  MapAll(f => FolderSeen(stamp, f), fs), t2, MapAll(b => BookSeen(stamp, b), bs), Doc(forms, CLOSE));
  }
}
