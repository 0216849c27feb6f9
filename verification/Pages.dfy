/** The page list of an opened archive (src/archive/cbz.rs:25-45, src/archive/cbr.rs:19-52). */
module Pages {
  import opened Wrappers
  import opened Text
  import NatSort

  const MAX_PAGE_BYTES: nat := 64 * 1024 * 1024

  datatype PageEntry = PageEntry(name: string, mime: string)

  /** An entry of the archive's directory; `mime` is set for image names, `Bad` cannot be read. */
  datatype ArchiveEntry = Bad | Entry(name: string, isDir: bool, mime: Option<string>, size: nat)

  predicate IsPage(e: ArchiveEntry) {
    e.Entry? && !e.isDir && e.mime.Some?
  }

  predicate Offends(e: ArchiveEntry) {
    e.Bad? || (IsPage(e) && e.size > MAX_PAGE_BYTES)
  }

  function PagesOf(es: seq<ArchiveEntry>): seq<PageEntry> {
    if es == [] then []
    else
      var e := es[|es| - 1];
      PagesOf(es[..|es| - 1]) + (if IsPage(e) then [PageEntry(e.name, e.mime.value)] else [])
  }

  function Order(a: PageEntry, b: PageEntry): Ordering {
    NatSort.Compare(a.name, b.name)
  }

  ghost predicate Sorted(s: seq<PageEntry>) {
    forall i, j :: 0 <= i < j < |s| ==> NatSort.Compare(s[i].name, s[j].name) != Greater
  }

  /** The entries that compare equal to `x`, in order. */
  function Class(s: seq<PageEntry>, x: PageEntry): seq<PageEntry> {
    if s == [] then []
    else (if NatSort.Compare(s[0].name, x.name) == Equal then [s[0]] else []) + Class(s[1..], x)
  }

  ghost predicate SameClass(s: seq<PageEntry>, t: seq<PageEntry>, x: PageEntry) {
    Class(s, x) == Class(t, x)
  }

  /** A stable sort: sorted, and entries that compare equal keep their order. */
  ghost predicate IsStableSort(s: seq<PageEntry>, out: seq<PageEntry>) {
    Sorted(out) && forall x :: SameClass(s, out, x)
  }

  lemma OrderLaws(a: PageEntry, b: PageEntry, c: PageEntry)
    ensures Order(a, a) == Equal && Order(b, a) == Flip(Order(a, b))
    ensures Order(a, b) != Greater && Order(b, c) != Greater ==> Order(a, c) != Greater
    ensures Order(a, b) == Equal && Order(b, c) == Equal ==> Order(a, c) == Equal
  {
    NatSort.CompareIsTotalPreorder(a.name, b.name, c.name);
    NatSort.CompareIsTotalPreorder(c.name, b.name, a.name);
    NatSort.CompareIsTotalPreorder(a.name, c.name, b.name);
    NatSort.CompareIsTotalPreorder(b.name, c.name, a.name);
  }

  lemma {:induction false} ClassConcat(s: seq<PageEntry>, t: seq<PageEntry>, x: PageEntry)
    ensures Class(s + t, x) == Class(s, x) + Class(t, x)
  {
    if s == [] {
      assert s + t == t;
    } else {
      ClassConcat(s[1..], t, x);
      assert (s + t)[1..] == s[1..] + t && (s + t)[0] == s[0];
      ConcatAssoc(if Order(s[0], x) == Equal then [s[0]] else [], Class(s[1..], x), Class(t, x));
    }
  }

  lemma ClassOfOne(p: PageEntry, x: PageEntry)
    ensures Class([p], x) == if Order(p, x) == Equal then [p] else []
  {
    assert [p][1..] == [];
  }

  /** Place `p` after everything that does not sort after it. */
  function Insert(s: seq<PageEntry>, p: PageEntry): seq<PageEntry> {
    if s == [] || Order(s[|s| - 1], p) != Greater then s + [p]
    else Insert(s[..|s| - 1], p) + [s[|s| - 1]]
  }

  lemma {:induction false} InsertParts(s: seq<PageEntry>, p: PageEntry)
    ensures multiset(Insert(s, p)) == multiset(s) + multiset{p}
    ensures |Insert(s, p)| == |s| + 1
    ensures forall q :: q in Insert(s, p) ==> q in s || q == p
  {
    if s != [] && Order(s[|s| - 1], p) == Greater {
      InsertParts(s[..|s| - 1], p);
      assert s == s[..|s| - 1] + [s[|s| - 1]];
    }
  }

  lemma {:induction false} InsertSorted(s: seq<PageEntry>, p: PageEntry)
    requires Sorted(s)
    ensures Sorted(Insert(s, p))
  {
    var r := Insert(s, p);
    if s == [] || Order(s[|s| - 1], p) != Greater {
      forall i, j | 0 <= i < j < |r|
        ensures Order(r[i], r[j]) != Greater
      {
        if j == |s| {
          OrderLaws(s[i], s[|s| - 1], p);
        }
      }
    } else {
      var init, last := s[..|s| - 1], s[|s| - 1];
      InsertSorted(init, p);
      InsertParts(init, p);
      var q := Insert(init, p);
      forall i, j | 0 <= i < j < |r|
        ensures Order(r[i], r[j]) != Greater
      {
        if j == |q| {
          assert q[i] in q;
          OrderLaws(last, p, p);
          if q[i] in init {
            var k :| 0 <= k < |init| && init[k] == q[i];
            assert s[k] == q[i];
          }
        }
      }
    }
  }

  /** Two entries that compare differently are not in one class. */
  lemma OneOfTheTwo(last: PageEntry, p: PageEntry, x: PageEntry)
    requires Order(last, p) == Greater
    ensures Class([last], x) == [] || Class([p], x) == []
    ensures Class([last], x) + Class([p], x) == Class([p], x) + Class([last], x)
  {
    ClassOfOne(p, x);
    ClassOfOne(last, x);
    OrderLaws(last, x, p);
    OrderLaws(p, x, last);
  }

  lemma {:induction false} InsertClass(s: seq<PageEntry>, p: PageEntry, x: PageEntry)
    ensures Class(Insert(s, p), x) == Class(s, x) + Class([p], x)
  {
    if s == [] || Order(s[|s| - 1], p) != Greater {
      ClassConcat(s, [p], x);
    } else {
      var init, last := s[..|s| - 1], s[|s| - 1];
      InsertClass(init, p, x);
      ClassConcat(Insert(init, p), [last], x);
      ClassConcat(init, [last], x);
      assert s == init + [last];
      OneOfTheTwo(last, p, x);
      ConcatAssoc(Class(init, x), Class([p], x), Class([last], x));
      ConcatAssoc(Class(init, x), Class([last], x), Class([p], x));
    }
  }

  lemma InsertStable(s: seq<PageEntry>, out: seq<PageEntry>, p: PageEntry)
    requires forall x :: SameClass(s, out, x)
    ensures forall x :: SameClass(s + [p], Insert(out, p), x)
  {
    forall x
      ensures SameClass(s + [p], Insert(out, p), x)
    {
      assert SameClass(s, out, x);
      InsertClass(out, p, x);
      ClassConcat(s, [p], x);
    }
  }

  /** The library's stable sort, by insertion from the left. */
  method StableSort(pages: seq<PageEntry>) returns (out: seq<PageEntry>)
    ensures IsStableSort(pages, out) && multiset(out) == multiset(pages)
  {
    out := [];
    for i := 0 to |pages|
      invariant Sorted(out) && multiset(out) == multiset(pages[..i])
      invariant forall x :: SameClass(pages[..i], out, x)
    {
      InsertSorted(out, pages[i]);
      InsertParts(out, pages[i]);
      assert pages[..i + 1] == pages[..i] + [pages[i]];
      InsertStable(pages[..i], out, pages[i]);
      out := Insert(out, pages[i]);
    }
    assert pages[..|pages|] == pages;
  }

  /** The entry at a position is a file with an image name, and `p` is its name and type. */
  predicate ImageAt(es: seq<ArchiveEntry>, i: int, p: PageEntry) {
    0 <= i < |es| && es[i].Entry? && !es[i].isDir && es[i].name == p.name && es[i].mime == Some(p.mime)
  }

  /** `at` lists, in order, the positions of all such entries, and `pages` what they are. */
  ghost predicate Enumerates(es: seq<ArchiveEntry>, at: seq<int>, pages: seq<PageEntry>) {
    && |at| == |pages|
    && (forall j, k :: 0 <= j < k < |at| ==> at[j] < at[k])
    && (forall k :: 0 <= k < |at| ==> ImageAt(es, at[k], pages[k]))
    && (forall i, p :: ImageAt(es, i, p) ==> i in at)
  }

  ghost predicate ImageEntries(es: seq<ArchiveEntry>, pages: seq<PageEntry>) {
    exists at :: Enumerates(es, at, pages)
  }

  lemma EnumeratesMore(es: seq<ArchiveEntry>, at: seq<int>, pages: seq<PageEntry>, n: int, p: PageEntry)
    requires n == |es| - 1 && n >= 0 && Enumerates(es[..n], at, pages) && ImageAt(es, n, p)
    ensures Enumerates(es, at + [n], pages + [p])
  {
    var at', pages' := at + [n], pages + [p];
    forall k | 0 <= k < |at'|
      ensures ImageAt(es, at'[k], pages'[k])
    {
      assert k < |at| ==> ImageAt(es[..n], at[k], pages[k]);
    }
    forall i, q | ImageAt(es, i, q)
      ensures i in at'
    {
      if i < n {
        assert ImageAt(es[..n], i, q);
      } else {
        assert at'[|at|] == i;
      }
    }
    assert forall k :: 0 <= k < |at| ==> ImageAt(es[..n], at[k], pages[k]);
  }

  lemma EnumeratesSame(es: seq<ArchiveEntry>, at: seq<int>, pages: seq<PageEntry>, n: int)
    requires n == |es| - 1 && n >= 0 && !IsPage(es[n])
    ensures Enumerates(es[..n], at, pages) <==> Enumerates(es, at, pages)
  {
    forall i, p
      ensures ImageAt(es[..n], i, p) <==> ImageAt(es, i, p)
    {
    }
  }

  lemma {:induction false} PagesOfEnumerates(es: seq<ArchiveEntry>) returns (at: seq<int>)
    ensures Enumerates(es, at, PagesOf(es))
  {
    if es == [] {
      at := [];
    } else {
      var n := |es| - 1;
      at := PagesOfEnumerates(es[..n]);
      if IsPage(es[n]) {
        EnumeratesMore(es, at, PagesOf(es[..n]), n, PageEntry(es[n].name, es[n].mime.value));
        at := at + [n];
      } else {
        EnumeratesSame(es, at, PagesOf(es[..n]), n);
      }
    }
  }

  lemma EnumeratesFewer(es: seq<ArchiveEntry>, at: seq<int>, pages: seq<PageEntry>, n: int)
    requires n == |es| - 1 && n >= 0 && IsPage(es[n]) && Enumerates(es, at, pages)
    ensures var m := |at| - 1;
            m >= 0 && pages[m] == PageEntry(es[n].name, es[n].mime.value) && Enumerates(es[..n], at[..m], pages[..m])
  {
    assert ImageAt(es, n, PageEntry(es[n].name, es[n].mime.value));
    var m := |at| - 1;
    assert ImageAt(es, at[m], pages[m]) && at[m] == n;
    forall i, p | ImageAt(es[..n], i, p)
      ensures i in at[..m]
    {
      assert ImageAt(es, i, p);
      var k :| 0 <= k < |at| && at[k] == i;
      assert at[..m][k] == i;
    }
    forall k | 0 <= k < m
      ensures ImageAt(es[..n], at[..m][k], pages[..m][k])
    {
      assert ImageAt(es, at[k], pages[k]);
    }
  }

  /** The entries determine their image entries. */
  lemma {:induction false} ImageEntriesUnique(es: seq<ArchiveEntry>, at: seq<int>, pages: seq<PageEntry>)
    requires Enumerates(es, at, pages)
    ensures pages == PagesOf(es)
    decreases |es|
  {
    if es == [] {
      assert forall i :: i in at ==> 0 <= i < |es|;
      assert multiset(at) == multiset{};
    } else {
      var n, m := |es| - 1, |at| - 1;
      if IsPage(es[n]) {
        EnumeratesFewer(es, at, pages, n);
        assert pages == pages[..m] + [pages[m]];
        ImageEntriesUnique(es[..n], at[..m], pages[..m]);
      } else {
        EnumeratesSame(es, at, pages, n);
        ImageEntriesUnique(es[..n], at, pages);
      }
    }
  }

  /** What opening gives: nothing if some entry cannot be read or is an image of more than 64 MiB,
      otherwise the image entries in stable natural order. */
  ghost predicate IsOpened(es: seq<ArchiveEntry>, r: Option<seq<PageEntry>>) {
    (r.None? <==>
       exists e :: e in es && (e.Bad? || (!e.isDir && e.mime.Some? && e.size > 0x400_0000))) &&
    (r.Some? ==> exists pages :: ImageEntries(es, pages) && IsStableSort(pages, r.value))
  }

  /** Opening an archive: any unreadable entry or oversized image refuses it, otherwise
      its pages are the image entries in stable natural order, none added or lost. */
  method Open(es: seq<ArchiveEntry>) returns (r: Option<seq<PageEntry>>)
    ensures IsOpened(es, r)
  {
    var pages: seq<PageEntry> := [];
    for i := 0 to |es|
      invariant pages == PagesOf(es[..i])
      invariant forall k :: 0 <= k < i ==> !Offends(es[k])
    {
      assert es[..i + 1][..i] == es[..i];
      var e := es[i];
      if e.Bad? {
        assert e in es && Offends(e);
        return None;
      }
      if !e.isDir && e.mime.Some? {
        if e.size > MAX_PAGE_BYTES {
          assert e in es && Offends(e);
          return None;
        }
        pages := pages + [PageEntry(e.name, e.mime.value)];
      }
    }
    assert es[..|es|] == es;
    var sorted := StableSort(pages);
    var _ := PagesOfEnumerates(es);
    return Some(sorted);
  }

  lemma {:induction false} ClassMembers(s: seq<PageEntry>, x: PageEntry, p: PageEntry)
    ensures p in Class(s, x) <==> p in s && Order(p, x) == Equal
  {
    if s != [] {
      ClassMembers(s[1..], x, p);
      assert p in s <==> p == s[0] || p in s[1..];
    }
  }

  lemma HeadClass(s: seq<PageEntry>)
    requires s != []
    ensures Class(s, s[0]) != [] && Class(s, s[0])[0] == s[0]
  {
    OrderLaws(s[0], s[0], s[0]);
  }

  lemma SameClassNonEmpty(a: seq<PageEntry>, b: seq<PageEntry>)
    requires a != [] && SameClass(a, b, a[0])
    ensures b != []
  {
    HeadClass(a);
  }

  /** There is only one stable sort of a list, so the page list is determined by the entries. */
  lemma {:induction false} StableSortUnique(a: seq<PageEntry>, b: seq<PageEntry>)
    requires Sorted(a) && Sorted(b) && forall x :: SameClass(a, b, x)
    ensures a == b
    decreases |a|
  {
    if a != [] {
      assert SameClass(a, b, a[0]);
      SameClassNonEmpty(a, b);
    }
    if b != [] {
      assert SameClass(a, b, b[0]);
      SameClassNonEmpty(b, a);
      HeadsAgree(a, b);
      forall x
        ensures SameClass(a[1..], b[1..], x)
      {
        assert SameClass(a, b, x);
        assert a == [a[0]] + a[1..] && b == [b[0]] + b[1..];
        ClassConcat([a[0]], a[1..], x);
        ClassConcat([b[0]], b[1..], x);
        var head := Class([a[0]], x);
        assert Class(a[1..], x) == (head + Class(a[1..], x))[|head|..];
        assert Class(b[1..], x) == (head + Class(b[1..], x))[|head|..];
      }
      StableSortUnique(a[1..], b[1..]);
      assert a == [a[0]] + a[1..] && b == [b[0]] + b[1..];
    }
  }

  lemma FirstIsLeast(a: seq<PageEntry>, p: PageEntry)
    requires Sorted(a) && p in a
    ensures Order(a[0], p) != Greater
  {
    var i :| 0 <= i < |a| && a[i] == p;
    OrderLaws(p, p, p);
  }

  lemma HeadsAgree(a: seq<PageEntry>, b: seq<PageEntry>)
    requires a != [] && b != [] && Sorted(a) && Sorted(b) && forall x :: SameClass(a, b, x)
    ensures a[0] == b[0]
  {
    HeadClass(a);
    HeadClass(b);
    assert SameClass(a, b, a[0]) && SameClass(a, b, b[0]);
    ClassMembers(b, a[0], a[0]);
    ClassMembers(a, b[0], b[0]);
    FirstIsLeast(a, b[0]);
    FirstIsLeast(b, a[0]);
    OrderLaws(a[0], b[0], a[0]);
  }

  /** The entries determine what opening gives. */
  lemma OpenedIsUnique(es: seq<ArchiveEntry>, r: Option<seq<PageEntry>>, r': Option<seq<PageEntry>>)
    requires IsOpened(es, r) && IsOpened(es, r')
    ensures r == r'
  {
    if r.Some? && r'.Some? {
      var pages :| ImageEntries(es, pages) && IsStableSort(pages, r.value);
      var pages' :| ImageEntries(es, pages') && IsStableSort(pages', r'.value);
      var at :| Enumerates(es, at, pages);
      var at' :| Enumerates(es, at', pages');
      ImageEntriesUnique(es, at, pages);
      ImageEntriesUnique(es, at', pages');
      forall x
        ensures SameClass(r.value, r'.value, x)
      {
        assert SameClass(pages, r.value, x) && SameClass(pages, r'.value, x);
      }
      StableSortUnique(r.value, r'.value);
    }
  }
}
