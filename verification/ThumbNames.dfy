/** The file names of the thumbnail cache (src/thumb.rs:48-57 and 130-136). */
module ThumbNames {
  import opened Text
  import opened Catalog

  datatype Key = CoverKey(hash: string) | PageKey(hash: string, page: nat, width: nat)

  function FinalName(k: Key): string {
    match k
    case CoverKey(h) => h + ".jpg"
    case PageKey(_, n, w) => Decimal(n) + ['_'] + (Decimal(w) + ".jpg")
  }

  function FinalDir(data: Path, k: Key): Path {
    match k
    case CoverKey(_) => data + ["thumbs"]
    case PageKey(h, _, _) => data + ["page_thumbs", h]
  }

  function FinalPath(data: Path, k: Key): Path {
    FinalDir(data, k) + [FinalName(k)]
  }

  /** A sibling of the final path, named after the process and a counter. */
  function TmpPath(data: Path, k: Key, pid: nat, n: nat): Path {
    FinalDir(data, k) + [FinalName(k) + (".tmp." + Decimal(pid)) + ['.'] + Decimal(n)]
  }

  /** A separator that does not occur after (before) the split determines it. */
  lemma SplitFromEnd(a: string, c: char, x: string, b: string, y: string)
    requires a + [c] + x == b + [c] + y && c !in x && c !in y
    ensures a == b && x == y
  {
    var s := a + [c] + x;
    assert s[|a|] == c && s[|b|] == c;
    assert a == s[..|a|] && b == s[..|b|] && x == s[|a| + 1..] && y == s[|b| + 1..];
  }

  lemma SplitFromStart(a: string, c: char, x: string, b: string, y: string)
    requires a + [c] + x == b + [c] + y && c !in a && c !in b
    ensures a == b && x == y
  {
    var s := a + [c] + x;
    assert s[|a|] == c && s[|b|] == c;
    assert a == s[..|a|] && b == s[..|b|] && x == s[|a| + 1..] && y == s[|b| + 1..];
  }

  lemma SuffixCancels(a: string, b: string, e: string)
    requires a + e == b + e
    ensures a == b
  {
    assert a == (a + e)[..|a|] && b == (b + e)[..|b|];
    assert |a| == |b|;
  }

  /** One file per key. */
  lemma FinalPathInjective(data: Path, k: Key, j: Key)
    requires FinalPath(data, k) == FinalPath(data, j)
    ensures k == j
  {
    var p, q := FinalPath(data, k), FinalPath(data, j);
    assert p[|p| - 1] == FinalName(k) && q[|q| - 1] == FinalName(j);
    if k.CoverKey? && j.CoverKey? {
      SuffixCancels(k.hash, j.hash, ".jpg");
    } else if k.PageKey? && j.PageKey? {
      assert p[|data| + 1] == k.hash && q[|data| + 1] == j.hash;
      DecimalReadsBack(k.page);
      DecimalReadsBack(j.page);
      SplitFromStart(Decimal(k.page), '_', Decimal(k.width) + ".jpg", Decimal(j.page), Decimal(j.width) + ".jpg");
      SuffixCancels(Decimal(k.width), Decimal(j.width), ".jpg");
      DecimalInjective(k.page, j.page);
      DecimalInjective(k.width, j.width);
    }
  }

  /** A temporary name is never a final name: it ends in a digit. */
  lemma TmpIsNotFinal(data: Path, k: Key, pid: nat, n: nat, j: Key)
    ensures TmpPath(data, k, pid, n) != FinalPath(data, j)
  {
    DecimalReadsBack(n);
    var p, q := TmpPath(data, k, pid, n), FinalPath(data, j);
    var s, e := p[|p| - 1], q[|q| - 1];
    var d := Decimal(n);
    assert s[|s| - 1] == d[|d| - 1] && IsDigit(d[|d| - 1]);
    assert e[|e| - 1] == 'g';
  }

  /** Different counter values give different temporary names, whatever they are for. */
  lemma TmpPathInjective(data: Path, k: Key, pid: nat, n: nat, j: Key, m: nat)
    requires TmpPath(data, k, pid, n) == TmpPath(data, j, pid, m)
    ensures n == m && k == j
  {
    var p, q := TmpPath(data, k, pid, n), TmpPath(data, j, pid, m);
    DecimalReadsBack(n);
    DecimalReadsBack(m);
    var e := ".tmp." + Decimal(pid);
    assert p[|p| - 1] == FinalName(k) + e + ['.'] + Decimal(n);
    assert q[|q| - 1] == FinalName(j) + e + ['.'] + Decimal(m);
    SplitFromEnd(FinalName(k) + e, '.', Decimal(n), FinalName(j) + e, Decimal(m));
    SuffixCancels(FinalName(k), FinalName(j), e);
    DecimalInjective(n, m);
    assert p[..|p| - 1] == FinalDir(data, k) && q[..|q| - 1] == FinalDir(data, j);
    FinalPathInjective(data, k, j);
  }
}
