/** The literal text of every line of a feed (src/opds.rs), and the round trip for it. */
module OpdsForms {
  import opened Wrappers
  import opened Text
  import opened Template
  import opened Opds
  import opened FeedReader

  function Plain(a: string): Shape {
    [Lit(a)]
  }

  function One(a: string, p: char, b: string): Shape {
    [Lit(a), Hole(p), Lit(b)]
  }

  function Two(a: string, p: char, b: string, q: char, c: string): Shape {
    [Lit(a), Hole(p), Lit(b), Hole(q), Lit(c)]
  }

  function Three(a: string, p: char, b: string, q: char, c: string, r: char, d: string): Shape {
    [Lit(a), Hole(p), Lit(b), Hole(q), Lit(c), Hole(r), Lit(d)]
  }

  const OPDS_REL := "http://" + "opds-spec.org/"
  const HEAD_LINK := "  <" + "link " + "rel=\""
  const ENTRY_LINK := "    <" + "link " + "rel=\""
  const HREF := "\" href=\""
  const TYPE := "\"" + " type=\""
  const END := "\"/>\n"

  /** The format strings, constant arguments filled in. Literals are cut where a proof needs to see them. */
  function Form(k: Kind): Shape {
    match k
    case XmlDecl => Plain("<?xml version=\"1.0\" " + "encoding=\"UTF-8\"?>\n")
    case FeedOpen =>
      Plain("<feed xmlns=\"" + ATOM_NS + "\" xmlns:opds=\"" + OPDS_NS + "\" xmlns:pse=\"" + PSE_NS + "\">\n")
    case FeedId => One("  <id>", '<', "</id>\n")
    case FeedTitle => One("  <title>", '<', "</title>\n")
    case FeedUpdated => One("  <updated>", '<', "</updated>\n")
    case FeedAuthor => Plain("  <author><name>" + "ComicStream" + "</name></author>\n")
    case LinkSelf => Two(HEAD_LINK + "self" + HREF, '"', TYPE, '"', END)
    case LinkStart => Plain(HEAD_LINK + "start" + HREF + "/opds" + TYPE + NAV_TYPE + END)
    case LinkSearch =>
      Plain("  <link " + "rel=\"search\" type=\"application/opensearchdescription+xml\""
            + " href=\"/opds/opensearch.xml\"/>\n")
    case LinkUp => One(HEAD_LINK + "up" + HREF, '"', TYPE + NAV_TYPE + END)
    case FeedClose => Plain("</feed>\n")
    case EntryOpen => Plain("  <" + "entry>\n")
    case EntryClose => Plain("  </entry>\n")
    case FolderId => One("    <id>urn:" + "comicstream:" + "folder:", '<', "</id>\n")
    case BookId => One("    <id>urn:" + "comicstream:" + "book:", '<', "</id>\n")
    case Title => One("    <title>", '<', "</title>\n")
    case Updated => One("    <updated>", '<', "</updated>\n")
    case Summary => One("    <" + "summary " + "type=\"text\">", '<', "</summary>\n")
    case FolderCover =>
      Two(ENTRY_LINK + (OPDS_REL + "image/thumbnail") + HREF + "/folders/", '/', "/cover", '"',
          TYPE + "image/jpeg" + END)
    case Subsection =>
      One(ENTRY_LINK + "subsection" + HREF + "/opds/folders/", '"', TYPE + NAV_TYPE + END)
    case BookCover =>
      One(ENTRY_LINK + (OPDS_REL + "image") + HREF + "/books/", '/', "/cover" + (TYPE + "image/jpeg" + END))
    case BookThumb =>
      One(ENTRY_LINK + (OPDS_REL + "image/thumbnail") + HREF + "/books/", '/',
          "/thumbnail" + (TYPE + "image/jpeg" + END))
    case BookStream =>
      Two(ENTRY_LINK + "http://vaemendis.net/opds-pse/stream" + HREF + "/books/", '/',
          "/pages/{pageNumber}" + (TYPE + "image/jpeg" + "\" pse:count=\""), '"', END)
    case BookFile =>
      Three(ENTRY_LINK + (OPDS_REL + "acquisition") + HREF + "/books/", '/', "/file" + TYPE, '"',
            "\" length=\"", '"', END)
  }

  lemma PlainFits(a: string)
    requires a != []
    ensures Fits(Plain(a), [])
  {
  }

  lemma OneFits(a: string, p: char, b: string)
    requires a != [] && b != [] && b[0] == p
    ensures Fits(One(a, p, b), [p])
  {
    var s := One(a, p, b);
    assert s[1..] == [Hole(p), Lit(b)] && s[2..] == [Lit(b)];
    assert HoleStops(s[1..]) == [p] + HoleStops(s[2..]);
  }

  lemma TwoFits(a: string, p: char, b: string, q: char, c: string)
    requires a != [] && b != [] && b[0] == p && c != [] && c[0] == q
    ensures Fits(Two(a, p, b, q, c), [p, q])
  {
    var s := Two(a, p, b, q, c);
    OneFits(b, q, c);
    assert s[1..][1..] == One(b, q, c);
    assert HoleStops(s[1..]) == [p] + HoleStops(One(b, q, c));
  }

  lemma ThreeFits(a: string, p: char, b: string, q: char, c: string, r: char, d: string)
    requires a != [] && b != [] && b[0] == p && c != [] && c[0] == q && d != [] && d[0] == r
    ensures Fits(Three(a, p, b, q, c, r, d), [p, q, r])
  {
    var s := Three(a, p, b, q, c, r, d);
    TwoFits(b, q, c, r, d);
    assert s[1..][1..] == Two(b, q, c, r, d);
    assert HoleStops(s[1..]) == [p] + HoleStops(Two(b, q, c, r, d));
  }

  lemma HeadFormsFit(k: Kind)
    requires k in {XmlDecl, FeedOpen, FeedId, FeedTitle, FeedUpdated, FeedAuthor}
    ensures FormFits(Form, k)
  {
    if k in {XmlDecl, FeedOpen, FeedAuthor} {
      PlainFits(Form(k)[0].text);
    } else {
      OneFits(Form(k)[0].text, '<', Form(k)[2].text);
    }
  }

  lemma LinkFormsFit(k: Kind)
    requires k in {LinkSelf, LinkStart, LinkSearch, LinkUp, FeedClose, EntryOpen, EntryClose}
    ensures FormFits(Form, k)
  {
    if k == LinkSelf {
      TwoFits(Form(k)[0].text, '"', Form(k)[2].text, '"', Form(k)[4].text);
    } else if k == LinkUp {
      OneFits(Form(k)[0].text, '"', Form(k)[2].text);
    } else {
      PlainFits(Form(k)[0].text);
    }
  }

  lemma EntryFormsFit(k: Kind)
    requires k in {FolderId, BookId, Title, Updated, Summary, FolderCover, Subsection}
    ensures FormFits(Form, k)
  {
    if k == FolderCover {
      TwoFits(Form(k)[0].text, '/', Form(k)[2].text, '"', Form(k)[4].text);
    } else if k == Subsection {
      OneFits(Form(k)[0].text, '"', Form(k)[2].text);
    } else {
      OneFits(Form(k)[0].text, '<', Form(k)[2].text);
    }
  }

  lemma BookFormsFit(k: Kind)
    requires k in {BookCover, BookThumb, BookStream, BookFile}
    ensures FormFits(Form, k)
  {
    match k
    case BookCover => OneFits(Form(k)[0].text, '/', Form(k)[2].text);
    case BookThumb => OneFits(Form(k)[0].text, '/', Form(k)[2].text);
    case BookStream => TwoFits(Form(k)[0].text, '/', Form(k)[2].text, '"', Form(k)[4].text);
    case BookFile => ThreeFits(Form(k)[0].text, '/', Form(k)[2].text, '"', Form(k)[4].text, '"', Form(k)[6].text);
  }

  lemma ClashAt(a: Shape, b: Shape, i: nat)
    requires a != [] && b != [] && a[0].Lit? && b[0].Lit?
    requires i < |a[0].text| && i < |b[0].text| && a[0].text[i] != b[0].text[i]
    ensures Clash(a, b)
  {
  }

  lemma FormsClash(k: Kind, j: Kind)
    requires Alternatives(k, j)
    ensures Clash(Form(k), Form(j))
  {
    match k
    case LinkUp => ClashAt(Form(k), Form(j), if j.EntryOpen? then 3 else 0);
    case EntryOpen => ClashAt(Form(k), Form(j), 0);
    case FolderId => ClashAt(Form(k), Form(j), 24);
    case Summary => ClashAt(Form(k), Form(j), 5);
  }

  lemma FormFitsAt(k: Kind)
    ensures FormFits(Form, k)
  {
    if k in {XmlDecl, FeedOpen, FeedId, FeedTitle, FeedUpdated, FeedAuthor} {
      HeadFormsFit(k);
    } else if k in {LinkSelf, LinkStart, LinkSearch, LinkUp, FeedClose, EntryOpen, EntryClose} {
      LinkFormsFit(k);
    } else if k in {FolderId, BookId, Title, Updated, Summary, FolderCover, Subsection} {
      EntryFormsFit(k);
    } else {
      BookFormsFit(k);
    }
  }

  lemma FormIsReadable()
    ensures Readable(Form)
  {
    var forms: Forms := Form;
    forall k
      ensures FormFits(forms, k)
    {
      FormFitsAt(k);
    }
    forall k, j | Alternatives(k, j)
      ensures Clash(forms(k), forms(j))
    {
      FormsClash(k, j);
      assert forms(k) == Form(k) && forms(j) == Form(j);
    }
  }

  /** The feed text, and what a reader gets back from it. */
  method PrintFeed(stamp: Stamp, ctx: FeedCtx, subfolders: seq<FolderItem>, books: seq<BookItem>) returns (s: string)
    ensures s == FeedText(Form, stamp, ctx, subfolders, books)
    ensures Printable(stamp, ctx, subfolders, books) ==>
              ReadFeed(Form, s) == Some(FeedSeen(stamp, ctx, subfolders, books))
  {
    s := BuildFeed(Form, stamp, ctx, subfolders, books);
    if Printable(stamp, ctx, subfolders, books) {
      FormIsReadable();
      FeedIsRecoverable(Form, stamp, ctx, subfolders, books);
    }
  }

  // ---------------------------------------------------------------------
  // Where the links lead
  // ---------------------------------------------------------------------

  function Link(rel: string, href: string, mime: string): string {
    ENTRY_LINK + rel + HREF + href + TYPE + mime + END
  }

  function FeedLink(rel: string, href: string, mime: string): string {
    HEAD_LINK + rel + HREF + href + TYPE + mime + END
  }

  lemma FillsOne(a: string, p: char, b: string, v: string)
    ensures Holes(One(a, p, b)) == 1 && Fill(One(a, p, b), [v]) == a + (v + b)
  {
    var s := One(a, p, b);
    assert s[1..] == [Hole(p), Lit(b)] && s[1..][1..] == [Lit(b)] && s[1..][1..][1..] == [];
    assert [v][1..] == [];
    assert Fill([Lit(b)], []) == b + [];
  }

  lemma FillsTwo(a: string, p: char, b: string, q: char, c: string, v: string, w: string)
    ensures Holes(Two(a, p, b, q, c)) == 2 && Fill(Two(a, p, b, q, c), [v, w]) == a + (v + (b + (w + c)))
  {
    var s := Two(a, p, b, q, c);
    FillsOne(b, q, c, w);
    assert s[1..][1..] == One(b, q, c) && [v, w][1..] == [w];
  }

  lemma FillsThree(a: string, p: char, b: string, q: char, c: string, r: char, d: string,
                   u: string, v: string, w: string)
    ensures Holes(Three(a, p, b, q, c, r, d)) == 3
    ensures Fill(Three(a, p, b, q, c, r, d), [u, v, w]) == a + (u + (b + (v + (c + (w + d)))))
  {
    var s := Three(a, p, b, q, c, r, d);
    FillsTwo(b, q, c, r, d, v, w);
    assert s[1..][1..] == Two(b, q, c, r, d) && [u, v, w][1..] == [v, w];
  }

  lemma LinkTo(head: string, rel: string, href: string, to: string, v: string,
               tail: string, mime: string, end: string)
    ensures (head + rel + href + to) + (v + (tail + mime + end)) == head + rel + href + (to + v) + tail + mime + end
  {
  }

  lemma LinkBelow(head: string, rel: string, href: string, to: string, v: string, sub: string,
                  tail: string, mime: string, end: string)
    ensures (head + rel + href + to) + (v + (sub + (tail + mime + end))) ==
            head + rel + href + (to + v + sub) + tail + mime + end
  {
  }

  lemma LinkCounted(head: string, rel: string, href: string, to: string, v: string, sub: string,
                    tail: string, mime: string, count: string, n: string, end: string)
    ensures (head + rel + href + to) + (v + ((sub + (tail + mime + count)) + (n + end))) ==
            head + rel + href + (to + v + sub) + tail + (mime + count + n) + end
  {
  }

  lemma LinkSized(head: string, rel: string, href: string, to: string, v: string, sub: string,
                  tail: string, mime: string, length: string, n: string, end: string)
    ensures (head + rel + href + to) + (v + ((sub + tail) + (mime + (length + (n + end))))) ==
            head + rel + href + (to + v + sub) + tail + (mime + length + n) + end
  {
  }

  lemma LinkAt(head: string, v: string, tail: string, mime: string, end: string)
    ensures head + (v + (tail + mime + end)) == head + v + tail + mime + end
    ensures head + (v + (tail + (mime + end))) == head + v + tail + mime + end
  {
  }

  /** The links of the feed itself. */
  lemma HeadLinkLines(href: string, mime: string)
    ensures Rendered(Form, Line(LinkSelf, [href, mime])) == FeedLink("self", href, mime)
    ensures Rendered(Form, Line(LinkStart, [])) == FeedLink("start", "/opds", NAV_TYPE)
    ensures Rendered(Form, Line(LinkUp, [href])) == FeedLink("up", href, NAV_TYPE)
  {
    FillsTwo(HEAD_LINK + "self" + HREF, '"', TYPE, '"', END, href, mime);
    LinkAt(HEAD_LINK + "self" + HREF, href, TYPE, mime, END);
    FillsOne(HEAD_LINK + "up" + HREF, '"', TYPE + NAV_TYPE + END, href);
    LinkAt(HEAD_LINK + "up" + HREF, href, TYPE, NAV_TYPE, END);
    FillsPlain(FeedLink("start", "/opds", NAV_TYPE));
  }

  lemma FillsPlain(a: string)
    ensures Holes(Plain(a)) == 0 && Fill(Plain(a), []) == a
  {
    assert Plain(a)[1..] == [];
  }

  /** The links of a folder entry. */
  lemma FolderLinks(slug: string, query: string)
    ensures Rendered(Form, Line(Subsection, [slug])) == Link("subsection", "/opds/folders/" + slug, NAV_TYPE)
    ensures Rendered(Form, Line(FolderCover, [slug, query])) ==
            Link(OPDS_REL + "image/thumbnail", "/folders/" + slug + "/cover" + query, "image/jpeg")
  {
    FillsOne(ENTRY_LINK + "subsection" + HREF + "/opds/folders/", '"', TYPE + NAV_TYPE + END, slug);
    LinkTo(ENTRY_LINK, "subsection", HREF, "/opds/folders/", slug, TYPE, NAV_TYPE, END);
    FolderCoverLink(slug, query);
  }

  lemma FolderCoverLink(slug: string, query: string)
    ensures Rendered(Form, Line(FolderCover, [slug, query])) ==
            Link(OPDS_REL + "image/thumbnail", "/folders/" + slug + "/cover" + query, "image/jpeg")
  {
    var rel := OPDS_REL + "image/thumbnail";
    var tail := TYPE + "image/jpeg" + END;
    FillsTwo(ENTRY_LINK + rel + HREF + "/folders/", '/', "/cover", '"', tail, slug, query);
    ConcatAssoc("/cover", query, tail);
    LinkBelow(ENTRY_LINK, rel, HREF, "/folders/", slug, "/cover" + query, TYPE, "image/jpeg", END);
    ConcatAssoc("/folders/" + slug, "/cover", query);
  }

  /** The image links of a book entry. */
  lemma BookCoverLinks(hash: string)
    ensures Rendered(Form, Line(BookCover, [hash])) ==
            Link(OPDS_REL + "image", "/books/" + hash + "/cover", "image/jpeg")
    ensures Rendered(Form, Line(BookThumb, [hash])) ==
            Link(OPDS_REL + "image/thumbnail", "/books/" + hash + "/thumbnail", "image/jpeg")
  {
    var tail := TYPE + "image/jpeg" + END;
    FillsOne(ENTRY_LINK + (OPDS_REL + "image") + HREF + "/books/", '/', "/cover" + tail, hash);
    LinkBelow(ENTRY_LINK, OPDS_REL + "image", HREF, "/books/", hash, "/cover", TYPE, "image/jpeg", END);
    FillsOne(ENTRY_LINK + (OPDS_REL + "image/thumbnail") + HREF + "/books/", '/', "/thumbnail" + tail, hash);
    LinkBelow(ENTRY_LINK, OPDS_REL + "image/thumbnail", HREF, "/books/", hash, "/thumbnail", TYPE, "image/jpeg", END);
  }

  lemma CountedLink(rel: string, to: string, hash: string, sub: string, mime: string, count: string, n: string)
    ensures var s := Two(ENTRY_LINK + rel + HREF + to, '/', sub + (TYPE + mime + count), '"', END);
            Holes(s) == 2 && Fill(s, [hash, n]) == Link(rel, to + hash + sub, mime + count + n)
  {
    FillsTwo(ENTRY_LINK + rel + HREF + to, '/', sub + (TYPE + mime + count), '"', END, hash, n);
    LinkCounted(ENTRY_LINK, rel, HREF, to, hash, sub, TYPE, mime, count, n, END);
  }

  lemma SizedLink(rel: string, to: string, hash: string, sub: string, mime: string, length: string, n: string)
    ensures var s := Three(ENTRY_LINK + rel + HREF + to, '/', sub + TYPE, '"', length, '"', END);
            Holes(s) == 3 && Fill(s, [hash, mime, n]) == Link(rel, to + hash + sub, mime + length + n)
  {
    FillsThree(ENTRY_LINK + rel + HREF + to, '/', sub + TYPE, '"', length, '"', END, hash, mime, n);
    LinkSized(ENTRY_LINK, rel, HREF, to, hash, sub, TYPE, mime, length, n, END);
  }

  /** The page-streaming link of a book, and the link to its file. */
  lemma BookFileLinks(hash: string, pages: string, mime: string, size: string)
    ensures Rendered(Form, Line(BookStream, [hash, pages])) ==
            Link("http://vaemendis.net/opds-pse/stream", "/books/" + hash + "/pages/{pageNumber}",
                 "image/jpeg" + "\" pse:count=\"" + pages)
    ensures Rendered(Form, Line(BookFile, [hash, mime, size])) ==
            Link(OPDS_REL + "acquisition", "/books/" + hash + "/file", mime + "\" length=\"" + size)
  {
    CountedLink("http://vaemendis.net/opds-pse/stream", "/books/", hash, "/pages/{pageNumber}",
                "image/jpeg", "\" pse:count=\"", pages);
    SizedLink(OPDS_REL + "acquisition", "/books/", hash, "/file", mime, "\" length=\"", size);
  }
}
