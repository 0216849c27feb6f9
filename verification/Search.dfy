/** Search queries compiled to SQL LIKE patterns (src/search.rs). */
module Search {
  import opened Text
  import opened Catalog
  import opened Listing
  import opened Queries

  // ---------------------------------------------------------------------
  // LIKE with ESCAPE '\'
  // ---------------------------------------------------------------------

  /** The database's `s LIKE p ESCAPE '\'`; a dangling escape matches nothing. */
  predicate Like(p: string, s: string)
    decreases |p|, |s|
  {
    if p == [] then s == []
    else if p[0] == '\\' then
      |p| >= 2 && s != [] && Lower(p[1]) == Lower(s[0]) && Like(p[2..], s[1..])
    else if p[0] == '%' then
      Like(p[1..], s) || (s != [] && Like(p, s[1..]))
    else
      s != [] && (p[0] == '_' || Lower(p[0]) == Lower(s[0])) && Like(p[1..], s[1..])
  }

  /** Every escape is followed by one of the characters that need it. */
  predicate WellEscaped(p: string) {
    p == [] ||
    if p[0] == '\\' then |p| >= 2 && p[1] in {'\\', '%', '_'} && WellEscaped(p[2..])
    else WellEscaped(p[1..])
  }

  // ---------------------------------------------------------------------
  // What a query means
  // ---------------------------------------------------------------------

  function Flatten(parts: seq<string>): string {
    if parts == [] then [] else parts[0] + Flatten(parts[1..])
  }

  /** `parts` splits `w` so that each `*` of the query takes any part and every other
      character exactly one like itself. */
  predicate Explains(q: string, w: string, parts: seq<string>) {
    |parts| == |q| && Flatten(parts) == w &&
    forall i :: 0 <= i < |q| ==> q[i] == '*' || (|parts[i]| == 1 && SameLetter(q[i], parts[i][0]))
  }

  ghost predicate Glob(q: string, w: string) {
    exists parts :: Explains(q, w, parts)
  }

  ghost predicate GlobAt(q: string, name: string, i: int, j: int) {
    0 <= i <= j <= |name| && Glob(q, name[i..j])
  }

  /** Some substring of the name matches the query. */
  ghost predicate Matches(q: string, name: string) {
    exists i, j :: GlobAt(q, name, i, j)
  }

  // ---------------------------------------------------------------------
  // The compiler
  // ---------------------------------------------------------------------

  function CompileChar(c: char): string {
    match c
    case '\\' => "\\\\"
    case '%' => "\\%"
    case '_' => "\\_"
    case '*' => "%"
    case _ => [c]
  }

  function Compile(q: string): string {
    if q == [] then [] else CompileChar(q[0]) + Compile(q[1..])
  }

  function LikePattern(q: string): string {
    ['%'] + Compile(q) + ['%']
  }

  lemma {:induction false} CompileSnoc(q: string, c: char)
    ensures Compile(q + [c]) == Compile(q) + CompileChar(c)
  {
    if q == [] {
      assert (q + [c])[1..] == [];
    } else {
      CompileSnoc(q[1..], c);
      assert (q + [c])[1..] == q[1..] + [c];
    }
  }

  /** The pattern grows by one buffer append per query character. */
  method ToLikePattern(q: string) returns (escaped: string)
    ensures escaped == LikePattern(q)
  {
    escaped := "%";
    for i := 0 to |q|
      invariant escaped == ['%'] + Compile(q[..i])
    {
      CompileSnoc(q[..i], q[i]);
      assert q[..i + 1] == q[..i] + [q[i]];
      match q[i] {
        case '\\' => escaped := escaped + "\\\\";
        case '%' => escaped := escaped + "\\%";
        case '_' => escaped := escaped + "\\_";
        case '*' => escaped := escaped + "%";
        case other => escaped := escaped + [other];
      }
    }
    assert q[..|q|] == q;
    escaped := escaped + "%";
  }

  lemma EscapedChar(c: char, rest: string)
    requires WellEscaped(rest)
    ensures WellEscaped(CompileChar(c) + rest)
  {
    var p, n := CompileChar(c) + rest, |CompileChar(c)|;
    assert p[n..] == rest && p[0] == CompileChar(c)[0];
    if n == 2 {
      assert p[1] == CompileChar(c)[1];
    }
  }

  /** The output never ends in a dangling escape. */
  lemma {:induction false} NoDanglingEscape(q: string)
    ensures WellEscaped(Compile(q) + ['%']) && WellEscaped(LikePattern(q))
  {
    if q == [] {
      assert Compile(q) + ['%'] == ['%'];
      assert WellEscaped(['%'][1..]);
    } else {
      NoDanglingEscape(q[1..]);
      EscapedChar(q[0], Compile(q[1..]) + ['%']);
      ConcatAssoc(CompileChar(q[0]), Compile(q[1..]), ['%']);
    }
    assert LikePattern(q)[1..] == Compile(q) + ['%'];
  }

  // ---------------------------------------------------------------------
  // Meaning is preserved
  // ---------------------------------------------------------------------

  ghost predicate LikeFrom(p: string, s: string, k: int) {
    0 <= k <= |s| && Like(p, s[k..])
  }

  lemma {:induction false} PercentSkips(p: string, s: string)
    ensures Like(['%'] + p, s) <==> exists k :: LikeFrom(p, s, k)
    decreases |s|
  {
    var pp := ['%'] + p;
    assert pp[1..] == p && s[0..] == s;
    if Like(p, s) {
      assert LikeFrom(p, s, 0);
    }
    if s != [] {
      PercentSkips(p, s[1..]);
      if k :| LikeFrom(p, s[1..], k) {
        assert s[1..][k..] == s[k + 1..];
        assert LikeFrom(p, s, k + 1);
      }
      if k :| LikeFrom(p, s, k) && k > 0 {
        assert s[1..][k - 1..] == s[k..];
        assert LikeFrom(p, s[1..], k - 1);
      }
    }
  }

  lemma LiteralStep(c: char, p: string, s: string)
    requires c != '*'
    ensures Like(CompileChar(c) + p, s) <==> s != [] && SameLetter(c, s[0]) && Like(p, s[1..])
  {
    var pp := CompileChar(c) + p;
    assert |CompileChar(c)| == 1 ==> pp[1..] == p;
    assert |CompileChar(c)| == 2 ==> pp[2..] == p;
  }

  lemma GlobEmpty(w: string)
    ensures Glob([], w) <==> w == []
  {
    assert Explains([], [], []);
  }

  lemma GlobStar(q: string, w: string)
    requires q != [] && q[0] == '*'
    ensures Glob(q, w) <==> exists k :: 0 <= k <= |w| && Glob(q[1..], w[k..])
  {
    if parts :| Explains(q, w, parts) {
      var k := |parts[0]|;
      assert w[k..] == Flatten(parts[1..]);
      assert Explains(q[1..], w[k..], parts[1..]);
    }
    if k :| 0 <= k <= |w| && Glob(q[1..], w[k..]) {
      var parts :| Explains(q[1..], w[k..], parts);
      assert ([w[..k]] + parts)[1..] == parts;
      assert w == w[..k] + w[k..];
      assert Explains(q, w, [w[..k]] + parts);
    }
  }

  lemma GlobLiteral(q: string, w: string)
    requires q != [] && q[0] != '*'
    ensures Glob(q, w) <==> w != [] && SameLetter(q[0], w[0]) && Glob(q[1..], w[1..])
  {
    if parts :| Explains(q, w, parts) {
      assert w[1..] == Flatten(parts[1..]);
      assert Explains(q[1..], w[1..], parts[1..]);
    }
    if w != [] && SameLetter(q[0], w[0]) && Glob(q[1..], w[1..]) {
      var parts :| Explains(q[1..], w[1..], parts);
      assert ([[w[0]]] + parts)[1..] == parts;
      assert w == [w[0]] + w[1..];
      assert Explains(q, w, [[w[0]]] + parts);
    }
  }

  ghost predicate GlobPrefix(q: string, s: string, j: int) {
    0 <= j <= |s| && Glob(q, s[..j])
  }

  lemma {:induction false} TailMeaning(q: string, s: string)
    ensures Like(Compile(q) + ['%'], s) <==> exists j :: GlobPrefix(q, s, j)
    decreases |q|, |s|
  {
    if q == [] {
      assert Compile(q) + ['%'] == ['%'] + [];
      PercentSkips([], s);
      assert LikeFrom([], s, |s|);
      GlobEmpty(s[..0]);
      assert GlobPrefix(q, s, 0);
    } else {
      var rest := Compile(q[1..]) + ['%'];
      assert Compile(q) + ['%'] == CompileChar(q[0]) + rest;
      if q[0] == '*' {
        PercentSkips(rest, s);
        StarMeaning(q, s);
      } else {
        LiteralStep(q[0], rest, s);
        LiteralMeaning(q, s);
      }
    }
  }

  lemma {:induction false} StarMeaning(q: string, s: string)
    requires q != [] && q[0] == '*'
    ensures (exists k :: LikeFrom(Compile(q[1..]) + ['%'], s, k)) <==> exists j :: GlobPrefix(q, s, j)
    decreases |q|, |s|, 0
  {
    var rest := Compile(q[1..]) + ['%'];
    if k :| LikeFrom(rest, s, k) {
      TailMeaning(q[1..], s[k..]);
      var j :| GlobPrefix(q[1..], s[k..], j);
      assert s[..k + j][k..] == s[k..][..j];
      GlobStar(q, s[..k + j]);
      assert GlobPrefix(q, s, k + j);
    }
    if j :| GlobPrefix(q, s, j) {
      GlobStar(q, s[..j]);
      var k :| 0 <= k <= j && Glob(q[1..], s[..j][k..]);
      assert s[..j][k..] == s[k..][..j - k];
      assert GlobPrefix(q[1..], s[k..], j - k);
      TailMeaning(q[1..], s[k..]);
      assert LikeFrom(rest, s, k);
    }
  }

  lemma {:induction false} LiteralMeaning(q: string, s: string)
    requires q != [] && q[0] != '*'
    ensures (s != [] && SameLetter(q[0], s[0]) && Like(Compile(q[1..]) + ['%'], s[1..])) <==>
            exists j :: GlobPrefix(q, s, j)
    decreases |q|, |s|, 0
  {
    if s != [] {
      TailMeaning(q[1..], s[1..]);
      if j :| GlobPrefix(q[1..], s[1..], j) && SameLetter(q[0], s[0]) {
        assert s[..j + 1][1..] == s[1..][..j];
        GlobLiteral(q, s[..j + 1]);
        assert GlobPrefix(q, s, j + 1);
      }
    }
    if j :| GlobPrefix(q, s, j) {
      GlobLiteral(q, s[..j]);
      assert s[..j][1..] == s[1..][..j - 1];
      assert GlobPrefix(q[1..], s[1..], j - 1);
    }
  }

  /** The compiled pattern matches a name exactly when some substring of it matches the
      query: `*` any sequence, every other character, specials included, itself up to ASCII case. */
  lemma CompilationPreservesMeaning(q: string, name: string)
    ensures Like(LikePattern(q), name) <==> Matches(q, name)
  {
    var tail := Compile(q) + ['%'];
    assert LikePattern(q) == ['%'] + tail;
    PercentSkips(tail, name);
    if k :| LikeFrom(tail, name, k) {
      TailMeaning(q, name[k..]);
      var j :| GlobPrefix(q, name[k..], j);
      assert name[k..][..j] == name[k..k + j];
      assert GlobAt(q, name, k, k + j);
    }
    if i, j :| GlobAt(q, name, i, j) {
      assert name[i..][..j - i] == name[i..j];
      assert GlobPrefix(q, name[i..], j - i);
      TailMeaning(q, name[i..]);
      assert LikeFrom(tail, name, i);
    }
  }

  // ---------------------------------------------------------------------
  // Stars at the edges and doubled stars
  // ---------------------------------------------------------------------

  lemma LeadingStarIsFree(q: string, name: string)
    ensures Matches(['*'] + q, name) <==> Matches(q, name)
  {
    var sq := ['*'] + q;
    assert sq[1..] == q;
    if i, j :| GlobAt(sq, name, i, j) {
      GlobStar(sq, name[i..j]);
      var k :| 0 <= k <= j - i && Glob(q, name[i..j][k..]);
      assert name[i..j][k..] == name[i + k..j];
      assert GlobAt(q, name, i + k, j);
    }
    if i, j :| GlobAt(q, name, i, j) {
      GlobStar(sq, name[i..j]);
      assert name[i..j][0..] == name[i..j];
      assert GlobAt(sq, name, i, j);
    }
  }

  lemma {:induction false} FlattenConcat(a: seq<string>, b: seq<string>)
    ensures Flatten(a + b) == Flatten(a) + Flatten(b)
  {
    if a == [] {
      assert a + b == b;
    } else {
      FlattenConcat(a[1..], b);
      assert (a + b)[1..] == a[1..] + b;
    }
  }

  lemma ExplainsSplit(a: string, b: string, w: string, x: seq<string>, y: seq<string>)
    requires |x| == |a|
    ensures Explains(a + b, w, x + y) <==>
            (w == Flatten(x) + Flatten(y) && Explains(a, Flatten(x), x) && Explains(b, Flatten(y), y))
  {
    FlattenConcat(x, y);
    var q, parts := a + b, x + y;
    if Explains(q, w, parts) {
      forall i | 0 <= i < |a|
        ensures a[i] == '*' || (|x[i]| == 1 && SameLetter(a[i], x[i][0]))
      {
        assert q[i] == a[i] && parts[i] == x[i];
      }
      forall i | 0 <= i < |b|
        ensures b[i] == '*' || (|y[i]| == 1 && SameLetter(b[i], y[i][0]))
      {
        assert q[|a| + i] == b[i] && parts[|a| + i] == y[i];
      }
    }
  }

  /** Splitting a query splits what it matches. */
  lemma GlobConcat(a: string, b: string, w: string)
    ensures Glob(a + b, w) <==> exists k :: 0 <= k <= |w| && Glob(a, w[..k]) && Glob(b, w[k..])
  {
    if parts :| Explains(a + b, w, parts) {
      var x, y := parts[..|a|], parts[|a|..];
      assert parts == x + y;
      ExplainsSplit(a, b, w, x, y);
      var k := |Flatten(x)|;
      assert w[..k] == Flatten(x) && w[k..] == Flatten(y);
    }
    if k :| 0 <= k <= |w| && Glob(a, w[..k]) && Glob(b, w[k..]) {
      var x :| Explains(a, w[..k], x);
      var y :| Explains(b, w[k..], y);
      assert w == w[..k] + w[k..];
      ExplainsSplit(a, b, w, x, y);
    }
  }

  lemma StarIsAny(w: string)
    ensures Glob(['*'], w)
  {
    assert Flatten([w][1..]) == [];
    assert Explains(['*'], w, [w]);
  }

  lemma TrailingStarIsFree(q: string, name: string)
    ensures Matches(q + ['*'], name) <==> Matches(q, name)
  {
    if i, j :| GlobAt(q + ['*'], name, i, j) {
      GlobConcat(q, ['*'], name[i..j]);
      var k :| 0 <= k <= j - i && Glob(q, name[i..j][..k]);
      assert name[i..j][..k] == name[i..i + k];
      assert GlobAt(q, name, i, i + k);
    }
    if i, j :| GlobAt(q, name, i, j) {
      var w := name[i..j];
      assert w[..|w|] == w;
      StarIsAny(w[|w|..]);
      GlobConcat(q, ['*'], w);
      assert GlobAt(q + ['*'], name, i, j);
    }
  }

  lemma DoubledStarGlob(b: string, w: string)
    ensures Glob("**" + b, w) <==> Glob(['*'] + b, w)
  {
    var one, two := ['*'] + b, "**" + b;
    assert one[1..] == b && two[1..] == one;
    if k :| 0 <= k <= |w| && Glob(one, w[k..]) {
      GlobStar(one, w[k..]);
      var m :| 0 <= m <= |w[k..]| && Glob(b, w[k..][m..]);
      assert w[k..][m..] == w[k + m..];
    }
    GlobStar(two, w);
    GlobStar(one, w);
    if Glob(one, w) {
      assert w[0..] == w;
    }
  }

  lemma DoubledStarIsStar(a: string, b: string, name: string)
    ensures Matches(a + "**" + b, name) <==> Matches(a + ['*'] + b, name)
  {
    assert a + "**" + b == a + ("**" + b) && a + ['*'] + b == a + (['*'] + b);
    forall i, j | 0 <= i <= j <= |name|
      ensures GlobAt(a + "**" + b, name, i, j) <==> GlobAt(a + ['*'] + b, name, i, j)
    {
      var w := name[i..j];
      GlobConcat(a, "**" + b, w);
      GlobConcat(a, ['*'] + b, w);
      forall k | 0 <= k <= |w|
        ensures Glob("**" + b, w[k..]) <==> Glob(['*'] + b, w[k..])
      {
        DoubledStarGlob(b, w[k..]);
      }
    }
  }

  // ---------------------------------------------------------------------
  // The search itself
  // ---------------------------------------------------------------------

  const FOLDER_LIMIT: nat := 50
  const BOOK_LIMIT: nat := 100

  function FolderNames(t: Tables): map<Path, string> {
    map p | p in t.folders :: t.folders[p].name
  }

  function BookNames(t: Tables): map<Path, string> {
    map p | p in t.books :: t.books[p].name
  }

  /** The rows of one table whose name matches; the empty query matches none. */
  ghost function Matching(names: map<Path, string>, q: string): set<Path> {
    set p | p in names && q != [] && Matches(q, names[p])
  }

  /** The first `limit` matching rows by key. */
  ghost predicate IsHits(names: map<Path, string>, rank: map<Path, Rank>, q: string, limit: nat, hits: seq<Path>) {
    exists all :: IsListing(rank, Matching(names, q), all) && hits == FirstOf(all, limit)
  }

  /** One statement: filter by the pattern, order by key, cut off. */
  method Select(names: map<Path, string>, rank: map<Path, Rank>, ghost q: string, pattern: string, limit: nat)
      returns (hits: seq<Path>)
    requires q != [] && pattern == LikePattern(q) && names.Keys <= rank.Keys
    ensures IsHits(names, rank, q, limit, hits)
  {
    var found := set p | p in names && Like(pattern, names[p]);
    forall p | p in names
      ensures Like(pattern, names[p]) <==> Matches(q, names[p])
    {
      CompilationPreservesMeaning(q, names[p]);
    }
    assert found == Matching(names, q);
    var all := OrderBy(rank, found);
    hits := FirstOf(all, limit);
  }

  ghost predicate IsResult(t: Tables, q: string, folders: seq<Path>, books: seq<Path>) {
    IsHits(FolderNames(t), FolderRanks(t), q, 50, folders) &&
    IsHits(BookNames(t), BookRanks(t), q, 100, books)
  }

  /** The folders and the books whose names match, each by key and cut off; none for the empty query. */
  method Run(t: Tables, q: string) returns (folders: seq<Path>, books: seq<Path>)
    ensures IsResult(t, q, folders, books)
  {
    if q == [] {
      assert IsListing(FolderRanks(t), Matching(FolderNames(t), q), []);
      assert IsListing(BookRanks(t), Matching(BookNames(t), q), []);
      return [], [];
    }
    var pattern := ToLikePattern(q);
    folders := Select(FolderNames(t), FolderRanks(t), q, pattern, FOLDER_LIMIT);
    books := Select(BookNames(t), BookRanks(t), q, pattern, BOOK_LIMIT);
  }

  /** What the results of a search are, row by row: distinct matching rows by key, at most 50 folders
      and 100 books; a matching row is missing only from a full list, and then comes after it. */
  lemma ResultRows(t: Tables, q: string, folders: seq<Path>, books: seq<Path>)
    requires IsResult(t, q, folders, books)
    ensures Distinct(folders) && |folders| <= 50 && Distinct(books) && |books| <= 100
    ensures forall p :: p in folders ==> p in t.folders && q != [] && Matches(q, t.folders[p].name)
    ensures forall p :: p in books ==> p in t.books && q != [] && Matches(q, t.books[p].name)
    ensures forall i, j :: 0 <= i < j < |folders| ==> FolderBefore(t, folders[i], folders[j])
    ensures forall i, j :: 0 <= i < j < |books| ==> BookBefore(t, books[i], books[j])
    ensures forall p :: p in t.folders && q != [] && Matches(q, t.folders[p].name) && p !in folders ==>
              |folders| == 50 && forall h :: h in folders ==> FolderBefore(t, h, p)
    ensures forall p :: p in t.books && q != [] && Matches(q, t.books[p].name) && p !in books ==>
              |books| == 100 && forall h :: h in books ==> BookBefore(t, h, p)
  {
    FolderHits(t, q, folders);
    BookHits(t, q, books);
  }

  lemma FolderHits(t: Tables, q: string, hits: seq<Path>)
    requires IsHits(FolderNames(t), FolderRanks(t), q, 50, hits)
    ensures Distinct(hits) && |hits| <= 50
    ensures forall p :: p in hits ==> p in t.folders && q != [] && Matches(q, t.folders[p].name)
    ensures forall i, j :: 0 <= i < j < |hits| ==> FolderBefore(t, hits[i], hits[j])
    ensures forall p :: p in t.folders && q != [] && Matches(q, t.folders[p].name) && p !in hits ==>
              |hits| == 50 && forall h :: h in hits ==> FolderBefore(t, h, p)
  {
    var rows := Matching(FolderNames(t), q);
    var all :| IsListing(FolderRanks(t), rows, all) && hits == FirstOf(all, 50);
    FirstOfIsTop(FolderRanks(t), rows, all, 50);
    RanksByKey(t);
    assert forall p :: p in hits ==> p in rows;
    assert forall p :: p in t.folders && q != [] && Matches(q, t.folders[p].name) ==> p in rows;
  }

  lemma BookHits(t: Tables, q: string, hits: seq<Path>)
    requires IsHits(BookNames(t), BookRanks(t), q, 100, hits)
    ensures Distinct(hits) && |hits| <= 100
    ensures forall p :: p in hits ==> p in t.books && q != [] && Matches(q, t.books[p].name)
    ensures forall i, j :: 0 <= i < j < |hits| ==> BookBefore(t, hits[i], hits[j])
    ensures forall p :: p in t.books && q != [] && Matches(q, t.books[p].name) && p !in hits ==>
              |hits| == 100 && forall h :: h in hits ==> BookBefore(t, h, p)
  {
    var rows := Matching(BookNames(t), q);
    var all :| IsListing(BookRanks(t), rows, all) && hits == FirstOf(all, 100);
    FirstOfIsTop(BookRanks(t), rows, all, 100);
    RanksByKey(t);
    assert forall p :: p in hits ==> p in rows;
    assert forall p :: p in t.books && q != [] && Matches(q, t.books[p].name) ==> p in rows;
  }

  predicate EdgeStarred(q: string, q': string) {
    q' == ['*'] + q || q' == q + ['*']
  }

  lemma EdgeStarMatching(names: map<Path, string>, q: string, q': string)
    requires EdgeStarred(q, q')
    ensures Matching(names, q') == if q == [] then names.Keys else Matching(names, q)
  {
    forall p | p in names
      ensures Matches(q', names[p]) <==> Matches(q, names[p])
      ensures q == [] ==> Matches(q, names[p])
    {
      LeadingStarIsFree(q, names[p]);
      TrailingStarIsFree(q, names[p]);
      if q == [] {
        GlobEmpty(names[p][0..0]);
        assert GlobAt(q, names[p], 0, 0);
      }
    }
  }

  lemma EdgeStarHits(names: map<Path, string>, rank: map<Path, Rank>, q: string, q': string, limit: nat,
                     hits: seq<Path>, starred: seq<Path>)
    requires EdgeStarred(q, q') && DistinctIds(rank) && names.Keys <= rank.Keys && 0 < limit
    requires IsHits(names, rank, q, limit, hits) && IsHits(names, rank, q', limit, starred)
    ensures hits == starred <==> q != [] || names == map[]
  {
    EdgeStarMatching(names, q, q');
    var all :| IsListing(rank, Matching(names, q), all) && hits == FirstOf(all, limit);
    var all' :| IsListing(rank, Matching(names, q'), all') && starred == FirstOf(all', limit);
    ListsSome(rank, Matching(names, q), all);
    ListsSome(rank, Matching(names, q'), all');
    if q != [] {
      ListingUnique(rank, Matching(names, q), all, all');
    } else {
      assert Matching(names, q) == {};
      assert names.Keys == {} <==> names == map[];
    }
  }

  /** A star at either edge changes the results of a search only through the empty-query guard:
      the results are the same if and only if the query is non-empty or the tables are empty. */
  lemma EdgeStarSearch(t: Tables, q: string, q': string, folders: seq<Path>, books: seq<Path>,
                       folders': seq<Path>, books': seq<Path>)
    requires Wellformed(t) && EdgeStarred(q, q')
    requires IsResult(t, q, folders, books) && IsResult(t, q', folders', books')
    ensures folders == folders' && books == books' <==> q != [] || (t.folders == map[] && t.books == map[])
  {
    RanksAreDistinct(t);
    EdgeStarHits(FolderNames(t), FolderRanks(t), q, q', 50, folders, folders');
    EdgeStarHits(BookNames(t), BookRanks(t), q, q', 100, books, books');
    assert FolderNames(t).Keys == t.folders.Keys && BookNames(t).Keys == t.books.Keys;
    assert t.folders == map[] <==> t.folders.Keys == {};
    assert t.books == map[] <==> t.books.Keys == {};
  }
}
