/** What a walk over a fixed tree has recorded at every turn (src/scan.rs:114-181). */
module Marking {
  import opened Wrappers
  import opened Catalog
  import opened Walk

  // ---------------------------------------------------------------------
  // Well-named trees and the shape of the work list
  // ---------------------------------------------------------------------

  /** Siblings have distinct names, at every level. */
  ghost predicate DistinctNames(ns: seq<Node>)
    decreases ns
  {
    (forall i, j :: 0 <= i < j < |ns| ==> ns[i].name != ns[j].name) &&
    (forall n :: n in ns && n.Dir? ==> DistinctNames(n.kids))
  }

  /** Neither path is at or above the other. */
  ghost predicate Apart(a: Path, b: Path) {
    !(a <= b) && !(b <= a)
  }

  ghost predicate AtOrAbove(a: Path, b: Path) {
    a <= b
  }

  /** Pending entries lie at unrelated paths, none of them at or above a recorded one. */
  ghost predicate Unrelated(work: seq<Item>) {
    forall i, j :: 0 <= i < j < |work| ==> Apart(work[i].At(), work[j].At())
  }

  ghost predicate Unrecorded(log: map<Path, Entry>, work: seq<Item>) {
    forall it, p :: it in work && p in log ==> !AtOrAbove(it.At(), p)
  }

  ghost predicate NamesOk(work: seq<Item>) {
    forall it :: it in work && it.node.Dir? ==> DistinctNames(it.node.kids)
  }

  ghost predicate IsStamped(log: map<Path, Entry>, p: Path) {
    p in log && log[p].outcome == Stamped
  }

  ghost predicate IsStampedDir(log: map<Path, Entry>, p: Path) {
    IsStamped(log, p) && log[p].node.Dir?
  }

  /** `path_to_id` knows exactly the root and the folders stamped so far, and
      everything recorded or pending sits in one of them. */
  ghost predicate DirsKnown(c: Config, w: State, work: seq<Item>) {
    (forall d :: d in w.ids <==> d == c.root || IsStampedDir(w.log, d)) &&
    (forall p :: p in w.log ==> p != [] && Parent(p) in w.ids && p != c.root) &&
    (forall it :: it in work ==> it.dir in w.ids && c.root <= it.dir)
  }

  ghost predicate Ready(c: Config, w: State, work: seq<Item>) {
    && Wellformed(w.t) && IdsCurrent(w)
    && Unrelated(work) && Unrecorded(w.log, work) && NamesOk(work) && DirsKnown(c, w, work)
  }

  lemma ChildApart(q: Path, name: string, r: Path)
    requires Apart(q, r)
    ensures Apart(q + [name], r)
  {
    if q + [name] <= r {
      PrefixTransitive(q, q + [name], r);
    } else if r <= q + [name] {
      PrefixOfChild(r, q, name);
    }
  }

  lemma SiblingsApart(q: Path, a: string, b: string)
    requires a != b
    ensures Apart(q + [a], q + [b])
  {
    assert (q + [a])[|q|] != (q + [b])[|q|];
  }

  lemma PrefixTransitive(a: Path, b: Path, c: Path)
    requires a <= b && b <= c
    ensures a <= c
  {
    assert a == b[..|a|] == c[..|b|][..|a|] == c[..|a|];
  }

  lemma PrefixOfChild(a: Path, q: Path, name: string)
    requires a <= q + [name]
    ensures a <= q || a == q + [name]
  {
    if |a| <= |q| {
      assert a == (q + [name])[..|a|] == q[..|a|];
    }
  }

  lemma ChildrenUnrelated(it: Item, rest: seq<Item>)
    requires Unrelated([it] + rest) && NamesOk([it] + rest)
    ensures Unrelated(Below(it) + rest) && NamesOk(Below(it) + rest)
    ensures Unrelated(rest) && NamesOk(rest)
  {
    var all, kids, q := [it] + rest, Below(it), it.At();
    var work := kids + rest;
    assert it in all;
    forall i | 0 <= i < |rest|
      ensures Apart(q, rest[i].At())
    {
      assert all[0] == it && all[i + 1] == rest[i];
    }
    forall i, j | 0 <= i < j < |rest|
      ensures Apart(rest[i].At(), rest[j].At())
    {
      assert all[i + 1] == rest[i] && all[j + 1] == rest[j];
    }
    forall i, j | 0 <= i < j < |work|
      ensures Apart(work[i].At(), work[j].At())
    {
      if j < |kids| {
        SiblingsApart(q, it.node.kids[i].name, it.node.kids[j].name);
      } else if i < |kids| {
        ChildApart(q, it.node.kids[i].name, rest[j - |kids|].At());
      } else {
        assert work[i] == rest[i - |kids|] && work[j] == rest[j - |kids|];
      }
    }
    forall k | k in work && k.node.Dir?
      ensures DistinctNames(k.node.kids)
    {
      if k in rest {
        assert k in all;
      } else {
        assert k.node in it.node.kids;
      }
    }
  }

  lemma ChildrenUnrecorded(it: Item, rest: seq<Item>, log: map<Path, Entry>, e: Entry)
    requires Unrelated([it] + rest) && Unrecorded(log, [it] + rest)
    ensures it.At() !in log && Unrecorded(log, rest)
    ensures Unrecorded(log[it.At() := e], Below(it) + rest) && Unrecorded(log[it.At() := e], rest)
  {
    var all, q := [it] + rest, it.At();
    assert it in all && AtOrAbove(q, q);
    forall k | k in rest
      ensures k in all && Apart(q, k.At())
    {
      var i :| 0 <= i < |rest| && rest[i] == k;
      assert all[0] == it && all[i + 1] == k;
    }
    forall k, p | k in Below(it) && (p in log || p == q)
      ensures !AtOrAbove(k.At(), p)
    {
      assert k.dir == q;
      if AtOrAbove(k.At(), p) {
        PrefixTransitive(q, k.At(), p);
      }
    }
  }

  /** The record of one turn: an upsert is recorded exactly for the attempted
      entries, and the walker descends exactly into the folders that were stamped. */
  ghost predicate Recorded(w: State, w': State, it: Item, descend: bool) {
    var q := it.At();
    if !Attempted(it.node) then w' == w && !descend
    else
      && q in w'.log && w'.log[q].node == it.node
      && w'.log == w.log[q := w'.log[q]]
      && (descend <==> IsStampedDir(w'.log, q))
      && (if descend then q in w'.ids && w'.ids == w.ids[q := w'.ids[q]] else w'.ids == w.ids)
  }

  lemma StepRecords(c: Config, w: State, it: Item)
    requires it.dir in w.ids
    ensures var (w', descend) := Step(c, w, it); Recorded(w, w', it, descend)
  {
  }

  lemma RecordedKeepsDirs(c: Config, w: State, w': State, it: Item, rest: seq<Item>, descend: bool)
    requires DirsKnown(c, w, [it] + rest) && Recorded(w, w', it, descend) && it.At() !in w.log
    ensures DirsKnown(c, w', (if descend then Below(it) else []) + rest)
    ensures it.At() != c.root
  {
    var q := it.At();
    assert it in [it] + rest;
    assert Parent(q) == it.dir && |q| > |c.root| && c.root <= q;
    var work' := (if descend then Below(it) else []) + rest;
    forall k | k in work'
      ensures k.dir in w'.ids && c.root <= k.dir
    {
      assert k in rest ==> k in [it] + rest;
    }
    forall d
      ensures d in w'.ids <==> d == c.root || IsStampedDir(w'.log, d)
    {
      assert d in w.ids <==> d == c.root || IsStampedDir(w.log, d);
    }
  }

  /** The orphan branches are never taken: every turn keeps the work list in order. */
  lemma NextKeepsReady(c: Config, w: State, work: seq<Item>)
    requires work != [] && Ready(c, w, work)
    ensures var (w', work') := Next(c, w, work);
            Ready(c, w', work') && work[0].dir in w.ids &&
            Recorded(w, w', work[0], Step(c, w, work[0]).1) &&
            work[0].At() !in w.log && work[0].At() != c.root
  {
    var it, rest := work[0], work[1..];
    assert work == [it] + rest && it in work;
    StepKeepsTree(c, w, it);
    StepRecords(c, w, it);
    var (w', descend) := Step(c, w, it);
    ChildrenUnrelated(it, rest);
    ChildrenUnrecorded(it, rest, w.log, if it.At() in w'.log then w'.log[it.At()] else Entry(it.node, Failed));
    RecordedKeepsDirs(c, w, w', it, rest, descend);
    assert [] + rest == rest;
  }

  ghost predicate Extends(log: map<Path, Entry>, log': map<Path, Entry>) {
    forall p :: p in log ==> p in log' && log'[p] == log[p]
  }

  lemma RecordedExtends(w: State, w': State, it: Item, descend: bool, log: map<Path, Entry>)
    requires Recorded(w, w', it, descend) && it.At() !in w.log && Extends(w'.log, log)
    ensures Extends(w.log, log)
  {
    assert forall p :: p in w.log ==> p in w'.log && w'.log[p] == w.log[p];
  }

  /** Entries already recorded keep their record. */
  lemma {:induction false} RecordsStay(c: Config, w: State, work: seq<Item>)
    requires Ready(c, w, work)
    ensures Extends(w.log, Drive(c, w, work).log)
    decreases Size(work)
  {
    if work != [] {
      SizeShrinks(work, Step(c, w, work[0]).1);
      var (w', work') := Next(c, w, work);
      NextKeepsReady(c, w, work);
      RecordsStay(c, w', work');
      RecordedExtends(w, w', work[0], Step(c, w, work[0]).1, Drive(c, w', work').log);
    }
  }

  lemma {:induction false} EndsReady(c: Config, w: State, work: seq<Item>)
    requires Ready(c, w, work)
    ensures Ready(c, Drive(c, w, work), [])
    decreases Size(work)
  {
    if work != [] {
      SizeShrinks(work, Step(c, w, work[0]).1);
      NextKeepsReady(c, w, work);
      EndsReady(c, Next(c, w, work).0, Next(c, w, work).1);
    }
  }

  // ---------------------------------------------------------------------
  // Which entries a walk reaches
  // ---------------------------------------------------------------------

  /** `n` is the entry at path `p` in the tree under `it`, and no folder from `it`
      down to `p` is hidden, ignored or failed. */
  ghost predicate Reached(it: Item, p: Path, n: Node, log: map<Path, Entry>)
    decreases it.node
  {
    (p == it.At() && n == it.node) ||
    (VisibleDir(it.node) && IsStampedDir(log, it.At()) &&
     exists k :: k in it.node.kids && Reached(Item(it.At(), k), p, n, log))
  }

  ghost predicate ReachedFrom(work: seq<Item>, p: Path, n: Node, log: map<Path, Entry>) {
    exists it :: it in work && Reached(it, p, n, log)
  }

  lemma ReachedFromNext(it: Item, rest: seq<Item>, p: Path, n: Node, log: map<Path, Entry>)
    ensures ReachedFrom([it] + rest, p, n, log) <==> Reached(it, p, n, log) || ReachedFrom(rest, p, n, log)
    ensures ReachedFrom(Below(it) + rest, p, n, log) <==>
            ReachedFrom(Below(it), p, n, log) || ReachedFrom(rest, p, n, log)
    ensures VisibleDir(it.node) && IsStampedDir(log, it.At()) ==>
              (Reached(it, p, n, log) <==>
               (p == it.At() && n == it.node) || ReachedFrom(Below(it), p, n, log))
  {
    assert it in [it] + rest;
    forall k | k in rest
      ensures k in [it] + rest && k in Below(it) + rest
    {
    }
    forall k | k in Below(it)
      ensures k in Below(it) + rest && k == Item(it.At(), k.node) && k.node in it.node.kids
    {
    }
    if it.node.Dir? {
      forall k | k in it.node.kids
        ensures Item(it.At(), k) in Below(it)
      {
        var i :| 0 <= i < |it.node.kids| && it.node.kids[i] == k;
        assert Below(it)[i] == Item(it.At(), k);
      }
    }
  }

  ghost predicate InRecord(log: map<Path, Entry>, p: Path, n: Node) {
    p in log && log[p].node == n
  }

  lemma RecordIsReachStep(w: State, w': State, it: Item, rest: seq<Item>, descend: bool,
                          log: map<Path, Entry>, p: Path, n: Node)
    requires Recorded(w, w', it, descend) && it.At() !in w.log
    requires Extends(w'.log, log)
    requires InRecord(log, p, n) <==>
             (InRecord(w'.log, p, n) ||
              (Attempted(n) && ReachedFrom((if descend then Below(it) else []) + rest, p, n, log)))
    ensures InRecord(log, p, n) <==>
            (InRecord(w.log, p, n) || (Attempted(n) && ReachedFrom([it] + rest, p, n, log)))
  {
    assert [] + rest == rest;
    ReachedFromNext(it, rest, p, n, log);
  }

  lemma DriveNext(c: Config, w: State, work: seq<Item>)
    requires work != []
    ensures var (w', work') := Next(c, w, work);
            Size(work') < Size(work) && Drive(c, w, work) == Drive(c, w', work')
    ensures work == [work[0]] + work[1..]
  {
    SizeShrinks(work, Step(c, w, work[0]).1);
  }

  /** The record of a walk holds exactly the attempted entries that no hidden,
      ignored or failed ancestor cuts off, each under its own path. */
  lemma {:induction false} RecordIsReach(c: Config, w: State, work: seq<Item>, p: Path, n: Node)
    requires Ready(c, w, work)
    ensures var log := Drive(c, w, work).log;
            InRecord(log, p, n) <==>
            (InRecord(w.log, p, n) || (Attempted(n) && ReachedFrom(work, p, n, log)))
    decreases Size(work)
  {
    if work != [] {
      var w', work' := Next(c, w, work).0, Next(c, w, work).1;
      DriveNext(c, w, work);
      NextKeepsReady(c, w, work);
      RecordsStay(c, w', work');
      RecordIsReach(c, w', work', p, n);
      RecordIsReachStep(w, w', work[0], work[1..], Step(c, w, work[0]).1, Drive(c, w', work').log, p, n);
    }
  }

  // ---------------------------------------------------------------------
  // What is in the tables for each recorded entry
  // ---------------------------------------------------------------------

  ghost predicate SameAt<V>(m: map<Path, V>, m': map<Path, V>, p: Path) {
    (p in m <==> p in m') && (p in m ==> m[p] == m'[p])
  }

  /** The folder row of `p` after its upsert: refreshed from the entry, id kept. */
  ghost predicate FolderResult(c: Config, t0: Tables, w: State, p: Path, n: Node, o: Outcome)
    requires n.Dir?
  {
    SameAt(t0.books, w.t.books, p) &&
    if o == Stamped then
      && p !in c.faults && p != [] && Parent(p) in w.ids && p in w.t.folders
      && (p in t0.folders ==> w.t.folders[p].id == t0.folders[p].id)
      && w.t.folders[p] == FolderRow(c, p, w.t.folders[p].id, Some(w.ids[Parent(p)]), None, n.info,
                                     if p in t0.folders then t0.folders[p].coverVersion else None)
    else
      SameAt(t0.folders, w.t.folders, p)
  }

  /** The book row of `p` after its upsert, decided by the file and the row of the previous scan. */
  ghost predicate BookResult(c: Config, t0: Tables, w: State, p: Path, n: Node, o: Outcome)
    requires n.File?
  {
    SameAt(t0.folders, w.t.folders, p) && o == BookOutcome(c, t0, p, n.file) &&
    if o == Stamped then
      && p != [] && Parent(p) in w.ids && p in w.t.books
      && (p in t0.books ==> w.t.books[p].id == t0.books[p].id)
      && w.t.books[p] == BookAfter(c, t0, p, w.ids[Parent(p)], n.file, w.t.books[p].id)
    else
      SameAt(t0.books, w.t.books, p)
  }

  /** Every path is either untouched since the walk began or as its one upsert left it. */
  ghost predicate TrackedAt(c: Config, t0: Tables, w: State, p: Path) {
    if p !in w.log then SameAt(t0.folders, w.t.folders, p) && SameAt(t0.books, w.t.books, p)
    else if w.log[p].node.Dir? then FolderResult(c, t0, w, p, w.log[p].node, w.log[p].outcome)
    else w.log[p].node.File? && BookResult(c, t0, w, p, w.log[p].node, w.log[p].outcome)
  }

  ghost predicate Tracked(c: Config, t0: Tables, w: State) {
    forall p :: TrackedAt(c, t0, w, p)
  }

  lemma FolderWriteTracked(c: Config, t0: Tables, w: State, w': State, p: Path, n: Node, id: Option<int>)
    requires p != [] && Parent(p) in w.ids && n.Dir? && p !in w.log && TrackedAt(c, t0, w, p)
    requires FolderWritten(c, w.t, w'.t, p, Some(w.ids[Parent(p)]), None, n.info, id)
    requires w'.ids == if id.Some? then w.ids[p := id.value] else w.ids
    ensures FolderResult(c, t0, w', p, n, if id.Some? then Stamped else Failed)
  {
    assert |Parent(p)| != |p|;
  }

  lemma StepTracksFolder(c: Config, t0: Tables, w: State, it: Item)
    requires Wellformed(w.t) && IdsCurrent(w) && it.dir in w.ids && it.At() !in w.log
    requires TrackedAt(c, t0, w, it.At()) && VisibleDir(it.node)
    ensures TrackedAt(c, t0, Step(c, w, it).0, it.At())
  {
    assert Parent(it.At()) == it.dir;
    var (t', id) := UpsertFolder(c, w.t, it.At(), Some(w.ids[it.dir]), None, it.node.info);
    UpsertFolderKeepsTree(c, w.t, it.At(), Some(w.ids[it.dir]), None, it.node.info);
    var w' := Step(c, w, it).0;
    assert w'.t == t' && w'.log == w.log[it.At() := Entry(it.node, if id.Some? then Stamped else Failed)];
    FolderWriteTracked(c, t0, w, w', it.At(), it.node, id);
  }

  /** An unwritten row decides an upsert as the row of the previous scan does. */
  lemma SameRowSameBook(c: Config, t0: Tables, t: Tables, p: Path, folder: int, info: FileInfo, id: int)
    requires SameAt(t0.books, t.books, p) && p != []
    ensures BookOutcome(c, t, p, info) == BookOutcome(c, t0, p, info)
    ensures BookOutcome(c, t0, p, info) == Stamped ==>
              BookAfter(c, t, p, folder, info, id) == BookAfter(c, t0, p, folder, info, id)
  {
  }

  lemma BookWriteTracked(c: Config, t0: Tables, w: State, w': State, p: Path, n: Node)
    requires p != [] && Parent(p) in w.ids && n.File? && p !in w.log && TrackedAt(c, t0, w, p)
    requires BookWritten(c, w.t, w'.t, p, w.ids[Parent(p)], n.file) && w'.ids == w.ids
    ensures BookResult(c, t0, w', p, n, BookOutcome(c, w.t, p, n.file))
  {
    var id := if p in w'.t.books then w'.t.books[p].id else 0;
    SameRowSameBook(c, t0, w.t, p, w.ids[Parent(p)], n.file, id);
  }

  lemma StepTracksBook(c: Config, t0: Tables, w: State, it: Item)
    requires Wellformed(w.t) && IdsCurrent(w) && it.dir in w.ids && it.At() !in w.log
    requires TrackedAt(c, t0, w, it.At()) && VisibleBook(it.node)
    ensures TrackedAt(c, t0, Step(c, w, it).0, it.At())
  {
    var p := it.At();
    assert Parent(p) == it.dir;
    var (t', o) := UpsertBook(c, w.t, p, w.ids[it.dir], it.node.file);
    UpsertBookKeepsTree(c, w.t, p, w.ids[it.dir], it.node.file);
    var w' := Step(c, w, it).0;
    assert w'.t == t' && w'.log == w.log[p := Entry(it.node, o)];
    BookWriteTracked(c, t0, w, w', p, it.node);
  }

  lemma StepTracksSelf(c: Config, t0: Tables, w: State, it: Item)
    requires Wellformed(w.t) && IdsCurrent(w) && it.dir in w.ids && it.At() !in w.log
    requires TrackedAt(c, t0, w, it.At())
    ensures TrackedAt(c, t0, Step(c, w, it).0, it.At())
  {
    if VisibleDir(it.node) {
      StepTracksFolder(c, t0, w, it);
    } else if VisibleBook(it.node) {
      StepTracksBook(c, t0, w, it);
    } else {
      StepRecords(c, w, it);
    }
  }

  /** What a step leaves alone at `p`. */
  ghost predicate UntouchedAt(w: State, w': State, p: Path) {
    && SameAt(w.t.folders, w'.t.folders, p) && SameAt(w.t.books, w'.t.books, p)
    && (p in w.log <==> p in w'.log) && (p in w.log ==> w.log[p] == w'.log[p])
    && (p != [] && Parent(p) in w.ids ==> Parent(p) in w'.ids && w'.ids[Parent(p)] == w.ids[Parent(p)])
  }

  lemma FolderWriteTouchesOne(c: Config, w: State, w': State, q: Path, n: Node, parent: Option<int>,
                              id: Option<int>, p: Path)
    requires n.Dir? && FolderWritten(c, w.t, w'.t, q, parent, None, n.info, id) && p != q && q !in w.ids
    requires w'.ids == if id.Some? then w.ids[q := id.value] else w.ids
    requires q in w'.log && w'.log == w.log[q := w'.log[q]]
    ensures UntouchedAt(w, w', p)
  {
  }

  lemma BookWriteTouchesOne(c: Config, w: State, w': State, q: Path, n: Node, folder: int, p: Path)
    requires q != [] && n.File? && BookWritten(c, w.t, w'.t, q, folder, n.file) && p != q
    requires w'.ids == w.ids && q in w'.log && w'.log == w.log[q := w'.log[q]]
    ensures UntouchedAt(w, w', p)
  {
  }

  lemma StepTouchesOne(c: Config, w: State, it: Item, p: Path)
    requires Wellformed(w.t) && IdsCurrent(w) && it.dir in w.ids && it.At() !in w.ids && p != it.At()
    ensures UntouchedAt(w, Step(c, w, it).0, p)
  {
    var n, q, w' := it.node, it.At(), Step(c, w, it).0;
    assert Parent(q) == it.dir;
    if VisibleDir(n) {
      var (t', id) := UpsertFolder(c, w.t, q, Some(w.ids[it.dir]), None, n.info);
      UpsertFolderKeepsTree(c, w.t, q, Some(w.ids[it.dir]), None, n.info);
      assert w'.t == t' && w'.log == w.log[q := w'.log[q]];
      FolderWriteTouchesOne(c, w, w', q, n, Some(w.ids[it.dir]), id, p);
    } else if VisibleBook(n) {
      UpsertBookKeepsTree(c, w.t, q, w.ids[it.dir], n.file);
      assert w'.log == w.log[q := w'.log[q]];
      BookWriteTouchesOne(c, w, w', q, n, w.ids[it.dir], p);
    }
  }

  lemma StepTracksOthers(c: Config, t0: Tables, w: State, it: Item, p: Path)
    requires Wellformed(w.t) && IdsCurrent(w) && it.dir in w.ids && it.At() !in w.ids
    requires TrackedAt(c, t0, w, p) && p != it.At()
    requires p in w.log ==> p != [] && Parent(p) in w.ids
    ensures TrackedAt(c, t0, Step(c, w, it).0, p)
  {
    StepTouchesOne(c, w, it, p);
    UntouchedStaysTracked(c, t0, w, Step(c, w, it).0, p);
  }

  lemma UntouchedStaysTracked(c: Config, t0: Tables, w: State, w': State, p: Path)
    requires UntouchedAt(w, w', p) && TrackedAt(c, t0, w, p)
    requires p in w.log ==> p != [] && Parent(p) in w.ids
    ensures TrackedAt(c, t0, w', p)
  {
  }

  lemma {:induction false} DriveTracks(c: Config, t0: Tables, w: State, work: seq<Item>)
    requires Ready(c, w, work) && Tracked(c, t0, w)
    ensures Tracked(c, t0, Drive(c, w, work))
    decreases Size(work)
  {
    if work != [] {
      SizeShrinks(work, Step(c, w, work[0]).1);
      var (w', work') := Next(c, w, work);
      NextKeepsReady(c, w, work);
      forall p
        ensures TrackedAt(c, t0, w', p)
      {
        assert TrackedAt(c, t0, w, p);
        if p == work[0].At() {
          StepTracksSelf(c, t0, w, work[0]);
        } else {
          StepTracksOthers(c, t0, w, work[0], p);
        }
      }
      DriveTracks(c, t0, w', work');
    }
  }
}
