/** The feed printer (src/opds.rs), and a reader that recovers what it printed. */
module Opds {
  import opened Wrappers
  import opened Text
  import opened Template

  // ---------------------------------------------------------------------
  // Escaping
  // ---------------------------------------------------------------------

  function EscChar(c: char): string {
    match c
    case '&' => "&amp;"
    case '<' => "&lt;"
    case '>' => "&gt;"
    case '"' => "&quot;"
    case '\'' => "&apos;"
    case _ => [c]
  }

  function Esc(s: string): string {
    if s == [] then [] else EscChar(s[0]) + Esc(s[1..])
  }

  lemma {:induction false} EscSnoc(s: string, c: char)
    ensures Esc(s + [c]) == Esc(s) + EscChar(c)
  {
    if s == [] {
      assert (s + [c])[1..] == [];
    } else {
      EscSnoc(s[1..], c);
      assert (s + [c])[1..] == s[1..] + [c] && (s + [c])[0] == s[0];
      ConcatAssoc(EscChar(s[0]), Esc(s[1..]), EscChar(c));
    }
  }

  method Escape(input: string) returns (out: string)
    ensures out == Esc(input)
  {
    out := [];
    for i := 0 to |input|
      invariant out == Esc(input[..i])
    {
      EscSnoc(input[..i], input[i]);
      assert input[..i + 1] == input[..i] + [input[i]];
      match input[i] {
        case '&' => out := out + "&amp;";
        case '<' => out := out + "&lt;";
        case '>' => out := out + "&gt;";
        case '"' => out := out + "&quot;";
        case '\'' => out := out + "&apos;";
        case c => out := out + [c];
      }
    }
    assert input[..|input|] == input;
  }

  predicate StartsWith(s: string, p: string): (r: bool)
    ensures r && p != [] ==> s != [] && s[0] == p[0]
  {
    |p| <= |s| &&
    var front := s[..|p|];
    assert p != [] ==> front[0] == s[0];
    front == p
  }

  /** The five predefined entities of section 4.6 of XML 1.0: the character and the
      length of its reference at the front of a text, if one is there. */
  function Entity(s: string): Option<(char, nat)> {
    if StartsWith(s, "&amp;") then Some(('&', 5))
    else if StartsWith(s, "&lt;") then Some(('<', 4))
    else if StartsWith(s, "&gt;") then Some(('>', 4))
    else if StartsWith(s, "&quot;") then Some(('"', 6))
    else if StartsWith(s, "&apos;") then Some(('\'', 6))
    else None
  }

  function Unescape(s: string): string {
    if s == [] then []
    else
      var e := Entity(s);
      if e.Some? then [e.value.0] + Unescape(s[e.value.1..]) else [s[0]] + Unescape(s[1..])
  }

  /** No markup character, and `&` only where a predefined entity starts. */
  predicate EntitiesOnly(s: string) {
    s == [] ||
    if s[0] == '&' then Entity(s).Some? && EntitiesOnly(s[Entity(s).value.1..])
    else s[0] !in {'<', '>', '"', '\''} && EntitiesOnly(s[1..])
  }

  lemma EscapedHead(c: char, rest: string)
    ensures var t := EscChar(c) + rest;
            t != [] && t[|EscChar(c)|..] == rest &&
            (if c in {'&', '<', '>', '"', '\''} then Entity(t) == Some((c, |EscChar(c)|)) && t[0] == '&'
             else Entity(t) == None && t[0] == c && |EscChar(c)| == 1)
  {
    var t, e := EscChar(c) + rest, EscChar(c);
    assert t[..|e|] == e && t[|e|..] == rest;
    if c in {'&', '<', '>', '"', '\''} {
      assert t[1] == e[1] && t[2] == e[2];
    }
  }

  lemma {:induction false} UnescapeUndoesEsc(s: string)
    ensures Unescape(Esc(s)) == s && EntitiesOnly(Esc(s))
  {
    if s != [] {
      UnescapeUndoesEsc(s[1..]);
      EscapedHead(s[0], Esc(s[1..]));
      assert s == [s[0]] + s[1..];
    }
  }

  lemma {:induction false} EscIsClean(s: string)
    ensures '<' !in Esc(s) && '>' !in Esc(s) && '"' !in Esc(s) && '\'' !in Esc(s)
  {
    if s != [] {
      EscIsClean(s[1..]);
      EscCharIsClean(s[0]);
      var h, t := EscChar(s[0]), Esc(s[1..]);
      NotInConcat('<', h, t);
      NotInConcat('>', h, t);
      NotInConcat('"', h, t);
      NotInConcat('\'', h, t);
    }
  }

  lemma EscCharIsClean(c: char)
    ensures var h := EscChar(c);
            '<' !in h && '>' !in h && '"' !in h && '\'' !in h
  {
  }

  // ---------------------------------------------------------------------
  // What is printed
  // ---------------------------------------------------------------------

  datatype FeedCtx = FeedCtx(
    selfHref: string, upHref: Option<string>, feedId: string, title: string, updated: string, acquisition: bool)

  datatype FolderItem = FolderItem(
    slug: string, name: string, mtime: int, description: Option<string>, coverVersion: Option<string>)

  datatype BookItem = BookItem(
    hash: string, name: string, format: string, fileSize: int, mtime: int, addedAt: int, pageCount: int)

  const ATOM_NS := "http://www.w3.org/2005/Atom"
  const OPDS_NS := "http://opds-spec.org/2010/catalog"
  const PSE_NS := "http://vaemendis.net/opds-pse/ns"
  const CATALOG_TYPE := "application/" + "atom+xml;" + "profile=" + "opds-catalog;"
  const NAV_TYPE := CATALOG_TYPE + "kind=navigation"
  const ACQ_TYPE := CATALOG_TYPE + "kind=acquisition"

  function BookMime(format: string): string {
    if format == "cbz" || format == "zip" then "application/vnd.comicbook+zip"
    else if format == "cbr" || format == "rar" then "application/vnd.comicbook-rar"
    else "application/octet-stream"
  }

  function Show(n: int): string {
    if n < 0 then ['-'] + Decimal(-n) else Decimal(n)
  }

  /** Seconds since the epoch as RFC 3339 text. */
  type Stamp = int -> string

  /** The lines a feed is made of, one for each `writeln!` or `push_str`. */
  datatype Kind =
    | XmlDecl | FeedOpen | FeedId | FeedTitle | FeedUpdated | FeedAuthor
    | LinkSelf | LinkStart | LinkSearch | LinkUp | FeedClose
    | EntryOpen | EntryClose | FolderId | BookId | Title | Updated | Summary
    | FolderCover | Subsection | BookCover | BookThumb | BookStream | BookFile

  /** The format string of each line. Constant arguments are part of its literals. */
  type Forms = Kind -> Shape

  /** What each argument of a line stops at: text at `<`, attributes at their quote, and
      the hash or slug inside a link at the slash after it. */
  function Stops(k: Kind): seq<char> {
    match k
    case FeedId | FeedTitle | FeedUpdated | FolderId | BookId | Title | Updated | Summary => ['<']
    case LinkSelf => ['"', '"']
    case LinkUp | Subsection => ['"']
    case FolderCover | BookStream => ['/', '"']
    case BookCover | BookThumb => ['/']
    case BookFile => ['/', '"', '"']
    case _ => []
  }

  datatype Line = Line(kind: Kind, values: seq<string>) {
    predicate Ok() {
      |values| == |Stops(kind)| && forall i :: 0 <= i < |values| ==> Stops(kind)[i] !in values[i]
    }
  }

  predicate AllOk(lines: seq<Line>) {
    forall i :: 0 <= i < |lines| ==> lines[i].Ok()
  }

  /** Two forms whose literals differ at some position: no text begins as both do. */
  ghost predicate Clash(a: Shape, b: Shape) {
    a != [] && b != [] && a[0].Lit? && b[0].Lit? &&
    exists i :: 0 <= i < |a[0].text| && i < |b[0].text| && a[0].text[i] != b[0].text[i]
  }

  /** Lines of which the reader must tell the first from the second. */
  predicate Alternatives(k: Kind, j: Kind) {
    match k
    case LinkUp => j.EntryOpen? || j.FeedClose?
    case EntryOpen => j.FeedClose?
    case FolderId => j.BookId?
    case Summary => j.FolderCover?
    case _ => false
  }

  /** A shape that starts with a literal and whose holes stop at the given characters. */
  predicate Fits(s: Shape, stops: seq<char>) {
    Delimited(s) && HoleStops(s) == stops && s != [] && s[0].Lit? && s[0].text != []
  }

  ghost predicate FormFits(forms: Forms, k: Kind) {
    Fits(forms(k), Stops(k))
  }

  /** What the reader relies on. */
  ghost predicate Readable(forms: Forms) {
    forall k, j :: FormFits(forms, k) && (Alternatives(k, j) ==> Clash(forms(k), forms(j)))
  }

  function Rendered(forms: Forms, line: Line): string {
    if |line.values| == Holes(forms(line.kind)) then Fill(forms(line.kind), line.values) else []
  }

  function Doc(forms: Forms, lines: seq<Line>): string {
    if lines == [] then [] else Rendered(forms, lines[0]) + Doc(forms, lines[1..])
  }

  function CoverQuery(v: Option<string>): string {
    if v.Some? then ['?', 'v', '='] + Esc(v.value) else []
  }

  function FolderTop(stamp: Stamp, f: FolderItem): seq<Line> {
    [Line(EntryOpen, []), Line(FolderId, [f.slug]), Line(Title, [Esc(f.name)]), Line(Updated, [stamp(f.mtime)])]
  }

  function FolderSummary(f: FolderItem): seq<Line> {
    if f.description.Some? then [Line(Summary, [Esc(f.description.value)])] else []
  }

  function FolderRest(f: FolderItem): seq<Line> {
    [Line(FolderCover, [f.slug, CoverQuery(f.coverVersion)]), Line(Subsection, [f.slug]), Line(EntryClose, [])]
  }

  function FolderLines(stamp: Stamp, f: FolderItem): seq<Line> {
    FolderTop(stamp, f) + (FolderSummary(f) + FolderRest(f))
  }

  function BookTop(stamp: Stamp, b: BookItem): seq<Line> {
    [Line(EntryOpen, []), Line(BookId, [Esc(b.hash)]), Line(Title, [Esc(b.name)]),
     Line(Updated, [stamp(if b.addedAt > b.mtime then b.addedAt else b.mtime)])]
  }

  function BookLinks(b: BookItem): seq<Line> {
    var h := Esc(b.hash);
    [Line(BookCover, [h]), Line(BookThumb, [h]), Line(BookStream, [h, Show(b.pageCount)])]
  }

  function BookEnd(b: BookItem): seq<Line> {
    [Line(BookFile, [Esc(b.hash), BookMime(b.format), Show(b.fileSize)]), Line(EntryClose, [])]
  }

  function BookLines(stamp: Stamp, b: BookItem): seq<Line> {
    BookTop(stamp, b) + (BookLinks(b) + BookEnd(b))
  }

  function HeadTop(ctx: FeedCtx): seq<Line> {
    [Line(XmlDecl, []), Line(FeedOpen, []), Line(FeedId, [Esc(ctx.feedId)]),
     Line(FeedTitle, [Esc(ctx.title)]), Line(FeedUpdated, [ctx.updated]), Line(FeedAuthor, [])]
  }

  function SelfType(ctx: FeedCtx): string {
    if ctx.acquisition then ACQ_TYPE else NAV_TYPE
  }

  function HeadLinks(ctx: FeedCtx): seq<Line> {
    [Line(LinkSelf, [Esc(ctx.selfHref), SelfType(ctx)]),
     Line(LinkStart, []), Line(LinkSearch, [])]
  }

  function HeadUp(ctx: FeedCtx): seq<Line> {
    if ctx.upHref.Some? then [Line(LinkUp, [Esc(ctx.upHref.value)])] else []
  }

  function HeadLines(ctx: FeedCtx): seq<Line> {
    HeadTop(ctx) + (HeadLinks(ctx) + HeadUp(ctx))
  }

  function Each<T>(linesOf: T -> seq<Line>, xs: seq<T>): seq<Line> {
    if xs == [] then [] else linesOf(xs[0]) + Each(linesOf, xs[1..])
  }

  function AllFolderLines(stamp: Stamp, fs: seq<FolderItem>): seq<Line> {
    Each((f: FolderItem) => FolderLines(stamp, f), fs)
  }

  function AllBookLines(stamp: Stamp, bs: seq<BookItem>): seq<Line> {
    Each((b: BookItem) => BookLines(stamp, b), bs)
  }

  function FeedText(forms: Forms, stamp: Stamp, ctx: FeedCtx, fs: seq<FolderItem>, bs: seq<BookItem>): string {
    Doc(forms, HeadLines(ctx)) +
    (Doc(forms, AllFolderLines(stamp, fs)) + (Doc(forms, AllBookLines(stamp, bs)) + Doc(forms, [Line(FeedClose, [])])))
  }

  // ---------------------------------------------------------------------
  // The printer
  // ---------------------------------------------------------------------

  lemma {:induction false} DocConcat(forms: Forms, a: seq<Line>, b: seq<Line>)
    ensures Doc(forms, a + b) == Doc(forms, a) + Doc(forms, b)
  {
    if a == [] {
      assert a + b == b;
    } else {
      DocConcat(forms, a[1..], b);
      assert (a + b)[1..] == a[1..] + b && (a + b)[0] == a[0];
    }
  }

  lemma DocSnoc(forms: Forms, a: seq<Line>, line: Line)
    ensures Doc(forms, a + [line]) == Doc(forms, a) + Rendered(forms, line)
  {
    DocConcat(forms, a, [line]);
    assert [line][1..] == [];
  }

  lemma {:induction false} EachSnoc<T>(linesOf: T -> seq<Line>, xs: seq<T>, x: T)
    ensures Each(linesOf, xs + [x]) == Each(linesOf, xs) + linesOf(x)
  {
    if xs == [] {
      assert (xs + [x])[1..] == [];
    } else {
      EachSnoc(linesOf, xs[1..], x);
      assert (xs + [x])[1..] == xs[1..] + [x] && (xs + [x])[0] == xs[0];
    }
  }

  /** A run of `writeln!` calls, each appending to the buffer. */
  method WriteLines(forms: Forms, s: string, lines: seq<Line>) returns (out: string)
    ensures out == s + Doc(forms, lines)
  {
    out := s;
    for i := 0 to |lines|
      invariant out == s + Doc(forms, lines[..i])
    {
      DocSnoc(forms, lines[..i], lines[i]);
      assert lines[..i + 1] == lines[..i] + [lines[i]];
      ConcatAssoc(s, Doc(forms, lines[..i]), Rendered(forms, lines[i]));
      out := out + Rendered(forms, lines[i]);
    }
    assert lines[..|lines|] == lines;
  }

  method WriteFolderEntry(forms: Forms, stamp: Stamp, s: string, f: FolderItem) returns (out: string)
    ensures out == s + Doc(forms, FolderLines(stamp, f))
  {
    var name := Escape(f.name);
    var summary: seq<Line> := [];
    if f.description.Some? {
      var desc := Escape(f.description.value);
      summary := [Line(Summary, [desc])];
    }
    var query := [];
    if f.coverVersion.Some? {
      var version := Escape(f.coverVersion.value);
      query := ['?', 'v', '='] + version;
    }
    out := WriteLines(forms, s,
      [Line(EntryOpen, []), Line(FolderId, [f.slug]), Line(Title, [name]), Line(Updated, [stamp(f.mtime)])]
      + (summary
         + [Line(FolderCover, [f.slug, query]), Line(Subsection, [f.slug]), Line(EntryClose, [])]));
  }

  method WriteBookEntry(forms: Forms, stamp: Stamp, s: string, b: BookItem) returns (out: string)
    ensures out == s + Doc(forms, BookLines(stamp, b))
  {
    var updated := stamp(if b.addedAt > b.mtime then b.addedAt else b.mtime);
    var hash := Escape(b.hash);
    var name := Escape(b.name);
    var mime := BookMime(b.format);
    out := WriteLines(forms, s,
      [Line(EntryOpen, []), Line(BookId, [hash]), Line(Title, [name]), Line(Updated, [updated])]
      + ([Line(BookCover, [hash]), Line(BookThumb, [hash]), Line(BookStream, [hash, Show(b.pageCount)])]
         + [Line(BookFile, [hash, mime, Show(b.fileSize)]), Line(EntryClose, [])]));
  }

  method WriteHead(forms: Forms, ctx: FeedCtx) returns (out: string)
    ensures out == Doc(forms, HeadLines(ctx))
  {
    var selfType := if ctx.acquisition then ACQ_TYPE else NAV_TYPE;
    var id := Escape(ctx.feedId);
    var title := Escape(ctx.title);
    var self_ := Escape(ctx.selfHref);
    var up: seq<Line> := [];
    if ctx.upHref.Some? {
      var href := Escape(ctx.upHref.value);
      up := [Line(LinkUp, [href])];
    }
    out := WriteLines(forms, [],
      [Line(XmlDecl, []), Line(FeedOpen, []), Line(FeedId, [id]), Line(FeedTitle, [title]),
       Line(FeedUpdated, [ctx.updated]), Line(FeedAuthor, [])]
      + ([Line(LinkSelf, [self_, selfType]), Line(LinkStart, []), Line(LinkSearch, [])] + up));
  }

  lemma EachDocSnoc<T>(forms: Forms, linesOf: T -> seq<Line>, xs: seq<T>, i: nat)
    requires i < |xs|
    ensures Doc(forms, Each(linesOf, xs[..i + 1])) ==
            Doc(forms, Each(linesOf, xs[..i])) + Doc(forms, linesOf(xs[i]))
  {
    EachSnoc(linesOf, xs[..i], xs[i]);
    DocConcat(forms, Each(linesOf, xs[..i]), linesOf(xs[i]));
    assert xs[..i + 1] == xs[..i] + [xs[i]];
  }

  method WriteFolders(forms: Forms, stamp: Stamp, s: string, fs: seq<FolderItem>) returns (out: string)
    ensures out == s + Doc(forms, AllFolderLines(stamp, fs))
  {
    ghost var linesOf := (f: FolderItem) => FolderLines(stamp, f);
    out := s;
    for i := 0 to |fs|
      invariant out == s + Doc(forms, Each(linesOf, fs[..i]))
    {
      EachDocSnoc(forms, linesOf, fs, i);
      ConcatAssoc(s, Doc(forms, Each(linesOf, fs[..i])), Doc(forms, linesOf(fs[i])));
      out := WriteFolderEntry(forms, stamp, out, fs[i]);
    }
    assert fs[..|fs|] == fs;
  }

  method WriteBooks(forms: Forms, stamp: Stamp, s: string, bs: seq<BookItem>) returns (out: string)
    ensures out == s + Doc(forms, AllBookLines(stamp, bs))
  {
    ghost var linesOf := (b: BookItem) => BookLines(stamp, b);
    out := s;
    for i := 0 to |bs|
      invariant out == s + Doc(forms, Each(linesOf, bs[..i]))
    {
      EachDocSnoc(forms, linesOf, bs, i);
      ConcatAssoc(s, Doc(forms, Each(linesOf, bs[..i])), Doc(forms, linesOf(bs[i])));
      out := WriteBookEntry(forms, stamp, out, bs[i]);
    }
    assert bs[..|bs|] == bs;
  }

  method BuildFeed(forms: Forms, stamp: Stamp, ctx: FeedCtx, subfolders: seq<FolderItem>, books: seq<BookItem>)
    returns (s: string)
    ensures s == FeedText(forms, stamp, ctx, subfolders, books)
  {
    ghost var head := Doc(forms, HeadLines(ctx));
    ghost var folders := Doc(forms, AllFolderLines(stamp, subfolders));
    ghost var entries, close := Doc(forms, AllBookLines(stamp, books)), Doc(forms, [Line(FeedClose, [])]);
    ConcatAssoc(head + folders, entries, close);
    ConcatAssoc(head, folders, entries + close);
    s := WriteHead(forms, ctx);
    s := WriteFolders(forms, stamp, s, subfolders);
    s := WriteBooks(forms, stamp, s, books);
    s := WriteLines(forms, s, [Line(FeedClose, [])]);
  }
}
