/** The rescan trigger: a channel of capacity one, any number of senders and one
    worker that drains it before each scan (src/scan.rs:50-73, src/routes.rs:86-95,
    src/poller.rs:17-26, src/watcher.rs:32-50). */
module Trigger {
  import opened Wrappers
  import opened Catalog
  import opened Marking
  import opened Sweeping
  import opened Scanner
  import opened Incremental
  import opened History
  import opened Mirror

  datatype Answer = Queued | AlreadyPending

  /** Where the worker's loop is: waiting in `recv`, emptying the channel, about to
      scan, or scanning. A scan remembers its inputs and whether the tree has held still. */
  datatype Worker =
    | Idle
    | Draining
    | Starting
    | Scanning(c: Config, before: Tables, lib: Library, still: bool)

  datatype Machine = Machine(full: bool, worker: Worker, lib: Library, db: Tables)

  datatype Event =
    | Send                          // a `try_send` from any sender
    | Receive                       // `recv` returns a message
    | Drain                         // `try_recv` returns another one
    | Drained                       // `try_recv` finds the channel empty
    | ScanStarts(c: Config)
    | ScanEnds(v: Visit, ok: bool)
    | TreeChanges(lib: Library)

  function Reply(m: Machine): Answer {
    if m.full then AlreadyPending else Queued
  }

  /** A scan that reports success over a tree that held still is the whole scan of that tree. */
  ghost predicate ScanFits(w: Worker, v: Visit, ok: bool)
    requires w.Scanning?
  {
    v.c == w.c &&
    (ok && w.still ==>
       StartWalk(w.c, w.before, w.lib.info).Some? &&
       SameButTokens(Sweep(WalkLibrary(w.c, w.before, w.lib).t, w.c.started), AfterVisit(w.before, v)))
  }

  ghost predicate Enabled(m: Machine, e: Event) {
    match e
    case Send => true
    case Receive => m.worker.Idle? && m.full
    case Drain => m.worker.Draining? && m.full
    case Drained => m.worker.Draining? && !m.full
    case ScanStarts(_) => m.worker.Starting?
    case ScanEnds(v, ok) => m.worker.Scanning? && ScanFits(m.worker, v, ok)
    case TreeChanges(_) => true
  }

  function Do(m: Machine, e: Event): Machine {
    match e
    case Send => m.(full := true)
    case Receive => m.(full := false, worker := Draining)
    case Drain => m.(full := false)
    case Drained => m.(worker := Starting)
    case ScanStarts(c) => m.(worker := Scanning(c, m.db, m.lib, true))
    case ScanEnds(v, _) => m.(worker := Idle, db := AfterVisit(m.db, v))
    case TreeChanges(lib) =>
      m.(lib := lib, worker := if m.worker.Scanning? then m.worker.(still := false) else m.worker)
  }

  ghost predicate Possible(m: Machine, es: seq<Event>)
    decreases |es|
  {
    es == [] || (Enabled(m, es[0]) && Possible(Do(m, es[0]), es[1..]))
  }

  function End(m: Machine, es: seq<Event>): Machine
    decreases |es|
  {
    if es == [] then m else End(Do(m, es[0]), es[1..])
  }

  // ---------------------------------------------------------------------
  // No trigger is lost
  // ---------------------------------------------------------------------

  /** A scan that has not started yet is owed. */
  predicate Pending(m: Machine) {
    m.full || m.worker.Draining? || m.worker.Starting?
  }

  /** A trigger is answered "pending" exactly if it leaves the machine as it was, and then a scan is
      owed already; whatever the answer, one is owed afterwards. */
  lemma ReplyIsHonest(m: Machine)
    ensures Reply(m) == AlreadyPending <==> Do(m, Send) == m
    ensures Reply(m) == AlreadyPending ==> Pending(m)
    ensures Pending(Do(m, Send))
  {
  }

  /** A scan that is owed can start whenever none is running, after steps of the worker alone, which
      take every earlier message with them. */
  lemma OwedScanCanStart(m: Machine, c: Config) returns (es: seq<Event>)
    requires Pending(m) && !m.worker.Scanning?
    ensures Possible(m, es) && End(m, es) == m.(full := m.full && m.worker.Starting?,
                                                worker := Scanning(c, m.db, m.lib, true))
    ensures forall e :: e in es ==> e.Receive? || e.Drain? || e.Drained? || e == ScanStarts(c)
    decreases if m.worker.Idle? then 3 else if m.worker.Draining? then (if m.full then 2 else 1) else 0
  {
    if m.worker.Starting? {
      es := [ScanStarts(c)];
      assert Possible(Do(m, ScanStarts(c)), es[1..]);
    } else {
      var e := if m.worker.Idle? then Receive else if m.full then Drain else Drained;
      es := OwedScanCanStart(Do(m, e), c);
      assert ([e] + es)[1..] == es;
      es := [e] + es;
    }
  }

  /** Messages in the channel, and the one the worker is about to scan for. */
  function Owed(m: Machine): nat {
    (if m.full then 1 else 0) + (if m.worker.Draining? || m.worker.Starting? then 1 else 0)
  }

  function Starts(es: seq<Event>): nat {
    if es == [] then 0 else (if es[0].ScanStarts? then 1 else 0) + Starts(es[1..])
  }

  /** Triggers that were answered "queued". */
  function QueuedSends(m: Machine, es: seq<Event>): nat
    decreases |es|
  {
    if es == [] then 0
    else (if es[0].Send? && Reply(m) == Queued then 1 else 0) + QueuedSends(Do(m, es[0]), es[1..])
  }

  /** No scan without a trigger of its own: from an idle worker on an empty channel, each scan that
      started and each that is owed has used up a trigger that was answered "queued". */
  lemma {:induction false} ScansAreTriggered(m: Machine, es: seq<Event>)
    requires Possible(m, es)
    ensures Starts(es) + Owed(End(m, es)) <= Owed(m) + QueuedSends(m, es)
    decreases |es|
  {
    if es != [] {
      ScansAreTriggered(Do(m, es[0]), es[1..]);
    }
  }

  lemma {:induction false} PendingUntilScan(m: Machine, es: seq<Event>)
    requires Possible(m, es) && Pending(m)
    ensures Pending(End(m, es)) || exists j :: 0 <= j < |es| && es[j].ScanStarts?
    decreases |es|
  {
    if es != [] && !es[0].ScanStarts? {
      PendingUntilScan(Do(m, es[0]), es[1..]);
      if j :| 0 <= j < |es[1..]| && es[1..][j].ScanStarts? {
        assert es[j + 1].ScanStarts?;
      }
    }
  }

  lemma {:induction false} SplitRun(m: Machine, es: seq<Event>, k: nat)
    requires Possible(m, es) && k <= |es|
    ensures Possible(m, es[..k]) && Possible(End(m, es[..k]), es[k..])
    ensures End(m, es) == End(End(m, es[..k]), es[k..])
    decreases k
  {
    if k > 0 {
      SplitRun(Do(m, es[0]), es[1..], k - 1);
      assert es[..k][1..] == es[1..][..k - 1] && es[1..][k - 1..] == es[k..] && es[..k][0] == es[0];
    } else {
      assert es[..0] == [] && es[0..] == es;
    }
  }

  /** In every interleaving, a trigger (answered either way) is followed by a scan
      that starts after it, or a scan is still owed at the end. */
  lemma NoTriggerLost(m: Machine, es: seq<Event>, i: nat)
    requires Possible(m, es) && i < |es| && es[i].Send?
    ensures Pending(End(m, es)) || exists j :: i < j < |es| && es[j].ScanStarts?
  {
    SplitRun(m, es, i);
    var m1, rest := End(m, es[..i]), es[i..];
    assert rest[0] == es[i];
    PendingUntilScan(Do(m1, rest[0]), rest[1..]);
    if j :| 0 <= j < |rest[1..]| && rest[1..][j].ScanStarts? {
      assert es[i + 1 + j].ScanStarts?;
    }
  }

  // ---------------------------------------------------------------------
  // A quiet system shows the visible tree
  // ---------------------------------------------------------------------

  /** The configurations of one process: one root, one slug function, one content per (path, size, time). */
  datatype Setting = Setting(root: Path, libraryName: Option<string>, slug: Path -> string, ghost world: World)

  ghost predicate Fits(g: Setting, lib: Library) {
    DistinctNames(lib.kids) && Faithful(g.world, g.root, lib.kids)
  }

  ghost predicate ConfigFits(g: Setting, c: Config) {
    c.root == g.root && c.libraryName == g.libraryName && c.slug == g.slug
  }

  ghost predicate EventFits(g: Setting, e: Event) {
    match e
    case ScanStarts(c) => ConfigFits(g, c)
    case ScanEnds(v, _) => FaithfulWork(g.world, v.items)
    case TreeChanges(lib) => Fits(g, lib)
    case _ => true
  }

  ghost predicate StartsBefore(now: int, e: Event) {
    e.ScanStarts? ==> e.c.started < now
  }

  ghost predicate MachineFits(g: Setting, now: int, m: Machine) {
    && Fits(g, m.lib) && SoundTables(g.world, g.slug, now, m.db)
    && (m.worker.Scanning? ==> m.worker.before == m.db && ConfigFits(g, m.worker.c) && m.worker.c.started < now)
  }

  lemma DoFits(g: Setting, now: int, m: Machine, e: Event)
    requires MachineFits(g, now, m) && EventFits(g, e) && StartsBefore(now, e) && Enabled(m, e)
    requires Injective(g.world, g.slug)
    ensures MachineFits(g, now, Do(m, e))
  {
    if e.ScanEnds? {
      VisitKeepsSound(g.world, g.slug, now, m.db, e.v);
    }
  }

  lemma {:induction false} RunFits(g: Setting, now: int, m: Machine, es: seq<Event>)
    requires MachineFits(g, now, m) && Possible(m, es) && Injective(g.world, g.slug)
    requires forall e :: e in es ==> EventFits(g, e) && StartsBefore(now, e)
    ensures MachineFits(g, now, End(m, es))
    decreases |es|
  {
    if es != [] {
      assert es[0] in es;
      DoFits(g, now, m, es[0]);
      RunFits(g, now, Do(m, es[0]), es[1..]);
    }
  }

  /** Nothing but the end of the running scan, sends and receipts that start no further scan. */
  lemma {:induction false} LastScan(m: Machine, es: seq<Event>)
    requires Possible(m, es) && m.worker.Scanning? && m.worker.still && m.worker.before == m.db && m.worker.lib == m.lib
    requires forall j :: 0 <= j < |es| ==> !es[j].ScanStarts? && !es[j].TreeChanges?
    requires forall j :: 0 <= j < |es| && es[j].ScanEnds? ==> es[j].ok
    requires End(m, es).worker.Idle?
    ensures StartWalk(m.worker.c, m.db, m.lib.info).Some?
    ensures SameButTokens(Sweep(WalkLibrary(m.worker.c, m.db, m.lib).t, m.worker.c.started), End(m, es).db)
    ensures End(m, es).lib == m.lib
    decreases |es|
  {
    assert es != [];
    var m' := Do(m, es[0]);
    if es[0].ScanEnds? {
      NoScanNoChange(m', es[1..]);
    } else {
      LastScan(m', es[1..]);
    }
  }

  lemma {:induction false} NoScanNoChange(m: Machine, es: seq<Event>)
    requires Possible(m, es) && !m.worker.Scanning?
    requires forall j :: 0 <= j < |es| ==> !es[j].ScanStarts? && !es[j].TreeChanges?
    ensures End(m, es).db == m.db && End(m, es).lib == m.lib
    decreases |es|
  {
    if es != [] {
      NoScanNoChange(Do(m, es[0]), es[1..]);
    }
  }

  /** The last scan start of a run. */
  lemma {:induction false} LastStart(es: seq<Event>, i: nat) returns (j: nat)
    requires i <= |es| && exists k :: i <= k < |es| && es[k].ScanStarts?
    ensures i <= j < |es| && es[j].ScanStarts?
    ensures forall k :: j < k < |es| ==> !es[k].ScanStarts?
    decreases |es| - i
  {
    if k :| i < k < |es| && es[k].ScanStarts? {
      j := LastStart(es, i + 1);
    } else {
      j := i;
    }
  }

  /** The scan started at `j` succeeded without write errors, in a later second than those before
      it, those of earlier processes included. */
  ghost predicate GoodLatestScan(visits: seq<Visit>, es: seq<Event>, j: nat)
    requires j < |es| && es[j].ScanStarts?
  {
    && es[j].c.faults == {}
    && (forall v :: v in visits ==> v.c.started < es[j].c.started)
    && (forall k :: 0 <= k < j && es[k].ScanStarts? ==> es[k].c.started < es[j].c.started)
    && (forall k :: j < k < |es| && es[k].ScanEnds? ==> es[k].ok)
  }

  /** The scans of earlier processes, of this or other roots, complete or cut off. */
  ghost predicate VisitsFit(g: Setting, visits: seq<Visit>) {
    forall v :: v in visits ==> v.c.slug == g.slug && v.c.root in g.world.dirs && FaithfulWork(g.world, v.items)
  }

  /** If the tree has stopped changing, a trigger came after that, and the worker is idle
      with an empty channel, then a scan has started since the trigger; and if the last
      one succeeded in a later second than those before it, the catalogue is the visible tree,
      whatever earlier processes left in the database. */
  lemma QuietMeansCurrent(g: Setting, visits: seq<Visit>, m0: Machine, es: seq<Event>, i: nat) returns (j: nat)
    requires m0.worker.Idle? && m0.db == AfterAll(EMPTY, visits) && VisitsFit(g, visits)
    requires Fits(g, m0.lib) && Injective(g.world, g.slug) && Possible(m0, es)
    requires forall e :: e in es ==> EventFits(g, e)
    requires i < |es| && es[i].Send? && forall k :: i <= k < |es| ==> !es[k].TreeChanges?
    requires End(m0, es).worker.Idle? && !End(m0, es).full
    ensures i < j < |es| && es[j].ScanStarts? && forall k :: j < k < |es| ==> !es[k].ScanStarts?
    ensures GoodLatestScan(visits, es, j) ==> Mirrors(g.root, g.libraryName, End(m0, es).lib, End(m0, es).db)
  {
    NoTriggerLost(m0, es, i);
    j := LastStart(es, i + 1);
    if GoodLatestScan(visits, es, j) {
      var c := es[j].c;
      SplitRun(m0, es, j);
      var m, rest := End(m0, es[..j]), es[j..];
      assert es[j] in es && rest[0] == es[j];
      RunsFromEmptyAreSound(g.world, g.slug, c.started, visits);
      RunFits(g, c.started, m0, es[..j]);
      forall k | 0 <= k < |rest[1..]|
        ensures rest[1..][k] == es[j + 1 + k]
      {
      }
      LastScan(Do(m, rest[0]), rest[1..]);
      ScanMirrorsTree(c, g.world, m.db, m.lib);
      TokensKeepMirror(c.root, c.libraryName, m.lib,
                       Sweep(WalkLibrary(c, m.db, m.lib).t, c.started), End(m0, es).db);
    }
  }

  /** What a scan over a tree that held still leaves, wherever it fails, is the end of a
      scan in this machine, with the entries of a faithful tree. */
  lemma ScanEndIsPossible(g: Setting, m: Machine, trouble: Trouble, ok: bool, t': Tables) returns (v: Visit)
    requires m.worker.Scanning? && m.worker.before == m.db && Fits(g, m.worker.lib) && ConfigFits(g, m.worker.c)
    requires ScanLeft(m.worker.c, m.worker.before, m.worker.lib, trouble, ok, t')
    ensures Enabled(m, ScanEnds(v, ok)) && EventFits(g, ScanEnds(v, ok))
    ensures Do(m, ScanEnds(v, ok)).db == t'
  {
    var c, lib := m.worker.c, m.worker.lib;
    v := ScanIsVisit(c, g.world, m.db, lib, trouble, ok, t');
    assert FaithfulVisit(g.world, c.slug, c.started + 1, v);
  }
}
