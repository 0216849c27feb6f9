/** Thumbnail pre-warming after a scan (src/scan.rs:227-344): which files it leaves, and what it counts. */
module Prewarm {
  /** A thumbnail file of the one configured page width. */
  datatype Thumb = Cover(hash: string) | Page(hash: string, page: nat)

  datatype Book = Book(path: string, hash: string, pageCount: nat)

  /** Which archives open, and which thumbnails can be read and resized from an open one. */
  datatype Disk = Disk(opens: string -> bool, makes: (string, Thumb) -> bool)

  datatype Tally = Tally(
    coversGenerated: nat, coversSkipped: nat, coversFailed: nat,
    pagesGenerated: nat, pagesSkipped: nat, pagesFailed: nat)
  {
    function Covers(): nat {
      coversGenerated + coversSkipped + coversFailed
    }

    function Pages(): nat {
      pagesGenerated + pagesSkipped + pagesFailed
    }

    function Generated(): nat {
      coversGenerated + pagesGenerated
    }

    function Failed(): nat {
      coversFailed + pagesFailed
    }
  }

  predicate IsWanted(b: Book, x: Thumb) {
    x.hash == b.hash && (x.Page? ==> x.page < b.pageCount)
  }

  predicate CanMake(d: Disk, b: Book, x: Thumb) {
    IsWanted(b, x) && d.opens(b.path) && d.makes(b.path, x)
  }

  /** `files'` is `files` and every thumbnail among `xs` that can be made. */
  ghost predicate Made(d: Disk, b: Book, xs: seq<Thumb>, files: set<Thumb>, files': set<Thumb>) {
    forall x :: x in files' <==> x in files || (x in xs && CanMake(d, b, x))
  }

  predicate Distinct(xs: seq<Thumb>) {
    forall i, j :: 0 <= i < j < |xs| ==> xs[i] != xs[j]
  }

  /** The page thumbnails of a book that are there. */
  function PagesIn(b: Book, files: set<Thumb>): set<Thumb> {
    set x | x in files && x.Page? && IsWanted(b, x)
  }

  /** The pages of a book that have no thumbnail yet. */
  method PagesNeeded(files: set<Thumb>, b: Book) returns (needed: seq<Thumb>)
    ensures Distinct(needed) && |needed| + |PagesIn(b, files)| == b.pageCount
    ensures forall x :: x in needed <==> x.Page? && IsWanted(b, x) && x !in files
  {
    needed := [];
    ghost var had := {};
    for n := 0 to b.pageCount
      invariant Distinct(needed) && |needed| + |had| == n
      invariant had == set x | x in files && x.Page? && x.hash == b.hash && x.page < n
      invariant forall x :: x in needed <==> x.Page? && x.hash == b.hash && x.page < n && x !in files
    {
      var x := Page(b.hash, n);
      if x !in files {
        needed := needed + [x];
      } else {
        had := had + {x};
      }
    }
    assert had == PagesIn(b, files);
  }

  /** Makes the given thumbnails from an opened archive, going on after each failure. */
  method MakeAll(d: Disk, b: Book, xs: seq<Thumb>, files: set<Thumb>)
    returns (files': set<Thumb>, made: nat, failed: nat)
    requires d.opens(b.path) && Distinct(xs) && forall x :: x in xs ==> IsWanted(b, x) && x !in files
    ensures Made(d, b, xs, files, files')
    ensures made + failed == |xs| && |files'| == |files| + made
    ensures failed == 0 <==> forall x :: x in xs ==> x in files'
    ensures files <= files' && |files' - files| == made
  {
    files', made, failed := files, 0, 0;
    for i := 0 to |xs|
      invariant Made(d, b, xs[..i], files, files') && files <= files' && |files' - files| == made
      invariant made + failed == i && |files'| == |files| + made
      invariant failed == 0 <==> forall x :: x in xs[..i] ==> x in files'
    {
      var x := xs[i];
      assert x !in xs[..i];
      assert xs[..i + 1] == xs[..i] + [x];
      if d.makes(b.path, x) {
        assert files' + {x} - files == (files' - files) + {x};
        files', made := files' + {x}, made + 1;
      } else {
        failed := failed + 1;
      }
    }
    assert xs[..|xs|] == xs;
  }

  /** The files one book leaves: those that were there, and those that can be made from it. */
  ghost predicate BookMade(d: Disk, b: Book, files: set<Thumb>, files': set<Thumb>) {
    forall x :: x in files' <==> x in files || CanMake(d, b, x)
  }

  /** Pages of the first `n` books. */
  function PageTotal(books: seq<Book>, n: nat): nat
    requires n <= |books|
  {
    if n == 0 then 0 else PageTotal(books, n - 1) + books[n - 1].pageCount
  }

  /** What a pass over the first `n` books leaves, in whatever order they come. */
  ghost predicate LeftBy(d: Disk, books: seq<Book>, n: nat, files: set<Thumb>, files': set<Thumb>)
    requires n <= |books|
  {
    forall x :: x in files' <==> x in files || exists k :: 0 <= k < n && CanMake(d, books[k], x)
  }

  ghost predicate Complete(b: Book, files: set<Thumb>) {
    forall x :: IsWanted(b, x) ==> x in files
  }

  ghost predicate AllComplete(books: seq<Book>, n: nat, files: set<Thumb>)
    requires n <= |books|
  {
    forall k :: 0 <= k < n ==> Complete(books[k], files)
  }

  lemma CompleteWhen(b: Book, files: set<Thumb>)
    ensures Complete(b, files) <==>
            Cover(b.hash) in files && forall x: Thumb :: x.Page? && IsWanted(b, x) ==> x in files
  {
    assert IsWanted(b, Cover(b.hash));
    forall x | IsWanted(b, x) && x.Cover?
      ensures x == Cover(b.hash)
    {
    }
  }

  /** One book. The archive is opened only when something is missing. */
  method PrewarmBook(d: Disk, files: set<Thumb>, b: Book) returns (files': set<Thumb>, t: Tally)
    ensures BookMade(d, b, files, files')
    ensures t.Covers() == 1 && t.Pages() == b.pageCount
    ensures |files'| == |files| + t.Generated()
    ensures t.coversSkipped == 1 <==> Cover(b.hash) in files
    ensures t.coversFailed == 0 <==> Cover(b.hash) in files'
    ensures t.pagesSkipped == |PagesIn(b, files)| && t.pagesFailed == b.pageCount - |PagesIn(b, files')|
    ensures t.Failed() == 0 <==> Complete(b, files')
  {
    var cover := Cover(b.hash);
    var cached := cover in files;
    var needed := PagesNeeded(files, b);
    var skipped := b.pageCount - |needed|;
    if cached && needed == [] {
      CompleteWhen(b, files);
      return files, Tally(0, 1, 0, 0, skipped, 0);
    }
    if !d.opens(b.path) {
      assert needed != [] ==> needed[0] in needed;
      CompleteWhen(b, files);
      return files, Tally(0, if cached then 1 else 0, if cached then 0 else 1, 0, skipped, |needed|);
    }
    var c := if cached then [] else [cover];
    var f1, g, f := MakeAll(d, b, c, files);
    var f2, pg, pf := MakeAll(d, b, needed, f1);
    assert PagesIn(b, f1) == PagesIn(b, files);
    assert PagesIn(b, f2) == PagesIn(b, f1) + (f2 - f1);
    CompleteWhen(b, f2);
    files', t := f2, Tally(g, if cached then 1 else 0, f, pg, skipped, pf);
  }

  /** The whole pass. It leaves the files that were there and everything that can be made, also where
      several books share a hash. Every book is counted once, every page once, the generated counts are
      the number of new files, and when nothing failed no wanted file is missing. */
  method Prewarm(d: Disk, files: set<Thumb>, books: seq<Book>) returns (files': set<Thumb>, total: Tally)
    ensures LeftBy(d, books, |books|, files, files')
    ensures total.Covers() == |books| && total.Pages() == PageTotal(books, |books|)
    ensures |files'| == |files| + total.Generated()
    ensures total.Failed() == 0 ==> AllComplete(books, |books|, files')
  {
    files' := files;
    var coversGenerated, coversSkipped, coversFailed := 0, 0, 0;
    var pagesGenerated, pagesSkipped, pagesFailed := 0, 0, 0;
    for i := 0 to |books|
      invariant LeftBy(d, books, i, files, files')
      invariant coversGenerated + coversSkipped + coversFailed == i
      invariant pagesGenerated + pagesSkipped + pagesFailed == PageTotal(books, i)
      invariant |files'| == |files| + coversGenerated + pagesGenerated
      invariant 0 <= coversGenerated && 0 <= coversSkipped && 0 <= coversFailed
      invariant 0 <= pagesGenerated && 0 <= pagesSkipped && 0 <= pagesFailed
      invariant coversFailed + pagesFailed == 0 ==> AllComplete(books, i, files')
    {
      var f, t := PrewarmBook(d, files', books[i]);
      OneBookMore(d, books, i, files, files', f);
      files' := f;
      coversGenerated := coversGenerated + t.coversGenerated;
      coversSkipped := coversSkipped + t.coversSkipped;
      coversFailed := coversFailed + t.coversFailed;
      pagesGenerated := pagesGenerated + t.pagesGenerated;
      pagesSkipped := pagesSkipped + t.pagesSkipped;
      pagesFailed := pagesFailed + t.pagesFailed;
    }
    total := Tally(coversGenerated, coversSkipped, coversFailed, pagesGenerated, pagesSkipped, pagesFailed);
  }

  lemma OneBookMore(d: Disk, books: seq<Book>, i: nat, files: set<Thumb>, before: set<Thumb>, after: set<Thumb>)
    requires i < |books| && LeftBy(d, books, i, files, before) && BookMade(d, books[i], before, after)
    ensures LeftBy(d, books, i + 1, files, after)
    ensures AllComplete(books, i, before) && Complete(books[i], after) ==> AllComplete(books, i + 1, after)
  {
  }
}
