/** Publication of thumbnails by any number of interleaved writers, each of which may
    fail at any step (src/thumb.rs:59-146). */
module Thumb {
  import opened Wrappers
  import opened Catalog
  import opened ThumbNames

  /** `image` is the finished JPEG of a key, `None` if its source is refused or does not decode. */
  datatype Setup = Setup(data: Path, pid: nat, image: Key -> Option<seq<int>>) {
    function Final(k: Key): Path { FinalPath(data, k) }
    function Tmp(k: Key, n: nat): Path { TmpPath(data, k, pid, n) }
  }

  /** A writer between two steps; `n` is its counter value, `inode` the file it has open. */
  datatype Phase =
    | Checking
    | Preparing
    | Named(n: nat)
    | Writing(n: nat, inode: int, written: nat)
    | Closed(n: nat, inode: int)
    | Cleaning(n: nat)
    | Done(ok: bool)

  datatype Writer = Writer(key: Key, phase: Phase) {
    /** The writer has a temporary name. */
    predicate InFlight() {
      phase.Named? || phase.Writing? || phase.Closed? || phase.Cleaning?
    }

    function Number(): nat
      requires InFlight()
    {
      phase.n
    }
  }

  /** Directory entries point to inodes, so that an open file outlives its name.
      `published` remembers the inodes that have had a final name, `readers` holds
      the inodes that open handles read from. */
  datatype World = World(
    names: map<Path, int>, data: map<int, seq<int>>, next: int, counter: nat,
    writers: map<int, Writer>, published: map<int, Key>, readers: map<int, int>)

  datatype Event =
    | Begin(id: int, key: Key)
    | SeeExists(id: int)
    | SeeAbsent(id: int)
    | PrepareFails(id: int)
    | PickName(id: int)
    | CreateOk(id: int)
    | WriteSome(id: int, upTo: nat)
    | CloseOk(id: int)
    | RenameOk(id: int)
    | Fails(id: int)
    | CleanUp(id: int, removed: bool)
    | OpenFinal(reader: int, key: Key)

  predicate Enabled(s: Setup, w: World, e: Event) {
    match e
    case Begin(id, _) => id !in w.writers
    case OpenFinal(r, k) => r !in w.readers && s.Final(k) in w.names
    case _ =>
      e.id in w.writers &&
      var x := w.writers[e.id];
      match e
      case SeeExists(_) => x.phase.Checking? && s.Final(x.key) in w.names
      case SeeAbsent(_) => x.phase.Checking? && s.Final(x.key) !in w.names
      case PrepareFails(_) => x.phase.Preparing?
      case PickName(_) => x.phase.Preparing? && s.image(x.key).Some?
      case CreateOk(_) => x.phase.Named?
      case WriteSome(_, m) =>
        x.phase.Writing? && s.image(x.key).Some? && x.phase.written < m <= |s.image(x.key).value|
      case CloseOk(_) =>
        x.phase.Writing? && s.image(x.key).Some? && x.phase.written == |s.image(x.key).value|
      case RenameOk(_) => x.phase.Closed? && s.Tmp(x.key, x.phase.n) in w.names
      case Fails(_) => x.phase.Named? || x.phase.Writing? || x.phase.Closed?
      case CleanUp(_, _) => x.phase.Cleaning?
      case _ => false
  }

  function Move(w: World, id: int, phase: Phase): World
    requires id in w.writers
  {
    w.(writers := w.writers[id := w.writers[id].(phase := phase)])
  }

  /** The world after an event; an event that is not enabled does nothing. */
  function Do(s: Setup, w: World, e: Event): World {
    if !Enabled(s, w, e) then w
    else
      match e
      case Begin(id, k) => w.(writers := w.writers[id := Writer(k, Checking)])
      case OpenFinal(r, k) => w.(readers := w.readers[r := w.names[s.Final(k)]])
      case SeeExists(id) => Move(w, id, Done(true))
      case SeeAbsent(id) => Move(w, id, Preparing)
      case PrepareFails(id) => Move(w, id, Done(false))
      case PickName(id) => Move(w, id, Named(w.counter)).(counter := w.counter + 1)
      case CreateOk(id) =>
        // Creating truncates a file that is already there.
        var x := w.writers[id];
        var tmp := s.Tmp(x.key, x.phase.n);
        var inode := if tmp in w.names then w.names[tmp] else w.next;
        Move(w, id, Writing(x.phase.n, inode, 0)).(
          names := w.names[tmp := inode], data := w.data[inode := []],
          next := if tmp in w.names then w.next else w.next + 1)
      case WriteSome(id, m) =>
        var x := w.writers[id];
        Move(w, id, x.phase.(written := m)).(data := w.data[x.phase.inode := s.image(x.key).value[..m]])
      case CloseOk(id) => Move(w, id, Closed(w.writers[id].phase.n, w.writers[id].phase.inode))
      case RenameOk(id) =>
        var x := w.writers[id];
        var tmp := s.Tmp(x.key, x.phase.n);
        var inode := w.names[tmp];
        Move(w, id, Done(true)).(
          names := w.names[s.Final(x.key) := inode] - {tmp}, published := w.published[inode := x.key])
      case Fails(id) => Move(w, id, Cleaning(w.writers[id].phase.n))
      case CleanUp(id, removed) =>
        var x := w.writers[id];
        var w' := Move(w, id, Done(false));
        if removed then w'.(names := w.names - {s.Tmp(x.key, x.phase.n)}) else w'
  }

  predicate Possible(s: Setup, w: World, es: seq<Event>)
    decreases |es|
  {
    es == [] || (Enabled(s, w, es[0]) && Possible(s, Do(s, w, es[0]), es[1..]))
  }

  function End(s: Setup, w: World, es: seq<Event>): World
    decreases |es|
  {
    if es == [] then w else End(s, Do(s, w, es[0]), es[1..])
  }

  // ---------------------------------------------------------------------
  // The invariant
  // ---------------------------------------------------------------------

  ghost predicate NamesOk(w: World) {
    && (forall p :: p in w.names ==> w.names[p] in w.data && w.names[p] < w.next)
    && (forall p, q :: p in w.names && q in w.names && w.names[p] == w.names[q] ==> p == q)
    && (forall i :: i in w.published ==> i in w.data && i < w.next)
  }

  /** A published inode is complete, and only ever named by its final name. */
  ghost predicate PublishedOk(s: Setup, w: World) {
    && (forall i :: i in w.published ==> i in w.data && s.image(w.published[i]) == Some(w.data[i]))
    && (forall p :: p in w.names && w.names[p] in w.published ==> p == s.Final(w.published[w.names[p]]))
    && (forall k :: s.Final(k) in w.names ==>
          w.names[s.Final(k)] in w.published && w.published[w.names[s.Final(k)]] == k)
  }

  /** A writer's own file holds what it has written so far. */
  ghost predicate WriterOk(s: Setup, w: World, x: Writer) {
    x.InFlight() ==>
      && x.Number() < w.counter && s.image(x.key).Some?
      && (x.phase.Writing? || x.phase.Closed? ==>
            var tmp := s.Tmp(x.key, x.phase.n);
            tmp in w.names && w.names[tmp] == x.phase.inode && x.phase.inode in w.data)
      && (x.phase.Writing? ==>
            x.phase.written <= |s.image(x.key).value| &&
            w.data[x.phase.inode] == s.image(x.key).value[..x.phase.written])
      && (x.phase.Closed? ==> w.data[x.phase.inode] == s.image(x.key).value)
  }

  ghost predicate WritersOk(s: Setup, w: World) {
    && (forall id :: id in w.writers ==> WriterOk(s, w, w.writers[id]))
    && (forall i, j :: i in w.writers && j in w.writers && i != j && w.writers[i].InFlight() && w.writers[j].InFlight()
          ==> w.writers[i].Number() != w.writers[j].Number())
  }

  ghost predicate ReadersOk(w: World) {
    forall r :: r in w.readers ==> w.readers[r] in w.published
  }

  ghost predicate Ok(s: Setup, w: World) {
    NamesOk(w) && PublishedOk(s, w) && WritersOk(s, w) && ReadersOk(w)
  }

  /** The inode behind a temporary name is never published. */
  lemma TmpUnpublished(s: Setup, w: World, k: Key, n: nat)
    requires PublishedOk(s, w)
    ensures s.Tmp(k, n) in w.names ==> w.names[s.Tmp(k, n)] !in w.published
  {
    if s.Tmp(k, n) in w.names && w.names[s.Tmp(k, n)] in w.published {
      TmpIsNotFinal(s.data, k, s.pid, n, w.published[w.names[s.Tmp(k, n)]]);
    }
  }

  /** No other writer in flight shares a writer's temporary name. */
  lemma OwnTmp(s: Setup, w: World, i: int, j: int)
    requires WritersOk(s, w) && i in w.writers && j in w.writers && i != j
    requires w.writers[i].InFlight() && w.writers[j].InFlight()
    ensures s.Tmp(w.writers[i].key, w.writers[i].Number()) != s.Tmp(w.writers[j].key, w.writers[j].Number())
  {
    if s.Tmp(w.writers[i].key, w.writers[i].Number()) == s.Tmp(w.writers[j].key, w.writers[j].Number()) {
      TmpPathInjective(s.data, w.writers[i].key, s.pid, w.writers[i].Number(),
                       w.writers[j].key, w.writers[j].Number());
    }
  }

  lemma OtherWritersOk(s: Setup, w: World, w': World, id: int, tmp: Path)
    requires Ok(s, w) && id in w.writers && w.writers[id].InFlight()
    requires tmp == s.Tmp(w.writers[id].key, w.writers[id].Number())
    requires w'.counter == w.counter && w'.writers.Keys == w.writers.Keys
    requires forall j :: j in w.writers && j != id ==> w'.writers[j] == w.writers[j]
    requires forall p :: p in w.names && p != tmp && (forall k :: p != s.Final(k)) ==>
               p in w'.names && w'.names[p] == w.names[p] &&
               w.names[p] in w'.data && w'.data[w.names[p]] == w.data[w.names[p]]
    ensures forall j :: j in w.writers && j != id ==> WriterOk(s, w', w'.writers[j])
  {
    forall j | j in w.writers && j != id
      ensures WriterOk(s, w', w'.writers[j])
    {
      var x := w.writers[j];
      assert WriterOk(s, w, x);
      if x.InFlight() {
        OwnTmp(s, w, id, j);
        forall k {
          TmpIsNotFinal(s.data, x.key, s.pid, x.Number(), k);
        }
      }
    }
  }

  lemma CreateKeepsFiles(s: Setup, w: World, id: int)
    requires Ok(s, w) && Enabled(s, w, CreateOk(id))
    ensures var w' := Do(s, w, CreateOk(id)); NamesOk(w') && PublishedOk(s, w') && ReadersOk(w')
  {
    var x := w.writers[id];
    TmpUnpublished(s, w, x.key, x.phase.n);
    forall k
      ensures s.Tmp(x.key, x.phase.n) != s.Final(k)
    {
      TmpIsNotFinal(s.data, x.key, s.pid, x.phase.n, k);
    }
  }

  lemma CreateKeepsOk(s: Setup, w: World, id: int)
    requires Ok(s, w) && Enabled(s, w, CreateOk(id))
    ensures Ok(s, Do(s, w, CreateOk(id)))
  {
    var x := w.writers[id];
    var w' := Do(s, w, CreateOk(id));
    assert WriterOk(s, w, x);
    CreateKeepsFiles(s, w, id);
    OtherWritersOk(s, w, w', id, s.Tmp(x.key, x.phase.n));
    NumbersDistinct(s, w, w', id);
  }

  /** A step of a writer that has its number keeps the numbers distinct. */
  lemma NumbersDistinct(s: Setup, w: World, w': World, id: int)
    requires WritersOk(s, w) && id in w.writers && w.writers[id].InFlight() && w'.writers.Keys == w.writers.Keys
    requires forall j :: j in w.writers && j != id ==> w'.writers[j] == w.writers[j]
    requires w'.writers[id].InFlight() ==> w'.writers[id].Number() == w.writers[id].Number()
    requires forall j :: j in w.writers && j != id ==> WriterOk(s, w', w'.writers[j])
    requires WriterOk(s, w', w'.writers[id])
    ensures WritersOk(s, w')
  {
  }

  lemma WriteKeepsOk(s: Setup, w: World, id: int, m: nat)
    requires Ok(s, w) && Enabled(s, w, WriteSome(id, m))
    ensures Ok(s, Do(s, w, WriteSome(id, m)))
  {
    var x := w.writers[id];
    var w' := Do(s, w, WriteSome(id, m));
    var tmp := s.Tmp(x.key, x.phase.n);
    assert WriterOk(s, w, x);
    TmpUnpublished(s, w, x.key, x.phase.n);
    OtherWritersOk(s, w, w', id, tmp);
  }

  lemma RenameKeepsFiles(s: Setup, w: World, id: int)
    requires Ok(s, w) && Enabled(s, w, RenameOk(id))
    ensures var w' := Do(s, w, RenameOk(id)); NamesOk(w') && PublishedOk(s, w') && ReadersOk(w')
  {
    var x := w.writers[id];
    assert WriterOk(s, w, x);
    TmpUnpublished(s, w, x.key, x.phase.n);
    TmpIsNotFinal(s.data, x.key, s.pid, x.phase.n, x.key);
    forall k | s.Final(k) == s.Final(x.key)
      ensures k == x.key
    {
      FinalPathInjective(s.data, k, x.key);
    }
  }

  lemma RenameKeepsOk(s: Setup, w: World, id: int)
    requires Ok(s, w) && Enabled(s, w, RenameOk(id))
    ensures Ok(s, Do(s, w, RenameOk(id)))
  {
    var x := w.writers[id];
    var w' := Do(s, w, RenameOk(id));
    RenameKeepsFiles(s, w, id);
    OtherWritersOk(s, w, w', id, s.Tmp(x.key, x.phase.n));
    NumbersDistinct(s, w, w', id);
  }

  lemma CleanUpKeepsOk(s: Setup, w: World, id: int, removed: bool)
    requires Ok(s, w) && Enabled(s, w, CleanUp(id, removed))
    ensures Ok(s, Do(s, w, CleanUp(id, removed)))
  {
    var x := w.writers[id];
    var w' := Do(s, w, CleanUp(id, removed));
    OtherWritersOk(s, w, w', id, s.Tmp(x.key, x.phase.n));
  }

  lemma StepKeepsOk(s: Setup, w: World, e: Event)
    requires Ok(s, w) && Enabled(s, w, e)
    ensures Ok(s, Do(s, w, e))
  {
    match e {
      case CreateOk(id) => CreateKeepsOk(s, w, id);
      case WriteSome(id, m) => WriteKeepsOk(s, w, id, m);
      case RenameOk(id) => RenameKeepsOk(s, w, id);
      case CleanUp(id, removed) => CleanUpKeepsOk(s, w, id, removed);
      case _ => QuietKeepsOk(s, w, e);
    }
  }

  /** Steps that touch no file. */
  /** The events that change no file. */
  predicate Quiet(e: Event) {
    !e.CreateOk? && !e.WriteSome? && !e.RenameOk? && !e.CleanUp?
  }

  lemma QuietKeepsWriter(s: Setup, w: World, e: Event, j: int)
    requires Ok(s, w) && Enabled(s, w, e) && Quiet(e) && j in Do(s, w, e).writers
    ensures WriterOk(s, Do(s, w, e), Do(s, w, e).writers[j])
  {
    assert j in w.writers ==> WriterOk(s, w, w.writers[j]);
  }

  lemma QuietKeepsNumbers(s: Setup, w: World, e: Event, i: int, j: int)
    requires Ok(s, w) && Enabled(s, w, e) && Quiet(e)
    requires var w' := Do(s, w, e);
             i in w'.writers && j in w'.writers && i != j && w'.writers[i].InFlight() && w'.writers[j].InFlight()
    ensures Do(s, w, e).writers[i].Number() != Do(s, w, e).writers[j].Number()
  {
    assert i in w.writers ==> WriterOk(s, w, w.writers[i]);
    assert j in w.writers ==> WriterOk(s, w, w.writers[j]);
  }

  lemma QuietKeepsOk(s: Setup, w: World, e: Event)
    requires Ok(s, w) && Enabled(s, w, e) && Quiet(e)
    ensures Ok(s, Do(s, w, e))
  {
    var w' := Do(s, w, e);
    QuietKeepsFiles(s, w, e);
    forall j | j in w'.writers
      ensures WriterOk(s, w', w'.writers[j])
    {
      QuietKeepsWriter(s, w, e, j);
    }
    forall i, j | i in w'.writers && j in w'.writers && i != j && w'.writers[i].InFlight() && w'.writers[j].InFlight()
      ensures w'.writers[i].Number() != w'.writers[j].Number()
    {
      QuietKeepsNumbers(s, w, e, i, j);
    }
  }

  lemma QuietKeepsFiles(s: Setup, w: World, e: Event)
    requires Ok(s, w) && Enabled(s, w, e) && Quiet(e)
    ensures var w' := Do(s, w, e);
            w'.names == w.names && w'.data == w.data && w'.published == w.published && w'.next == w.next &&
            w.counter <= w'.counter && NamesOk(w') && PublishedOk(s, w') && ReadersOk(w')
  {
    var w' := Do(s, w, e);
    assert w'.names == w.names && w'.data == w.data && w'.published == w.published && w'.next == w.next;
  }

  lemma {:induction false} RunKeepsOk(s: Setup, w: World, es: seq<Event>)
    requires Ok(s, w) && Possible(s, w, es)
    ensures Ok(s, End(s, w, es))
    ensures forall r :: r in w.readers ==> r in End(s, w, es).readers && End(s, w, es).readers[r] == w.readers[r]
    ensures forall i :: i in w.published ==>
              i in End(s, w, es).published && End(s, w, es).published[i] == w.published[i]
    decreases |es|
  {
    if es != [] {
      StepKeepsOk(s, w, es[0]);
      StepKeepsReaders(s, w, es[0]);
      RunKeepsOk(s, Do(s, w, es[0]), es[1..]);
    }
  }

  lemma StepKeepsReaders(s: Setup, w: World, e: Event)
    requires Ok(s, w) && Enabled(s, w, e)
    ensures var w' := Do(s, w, e);
            (forall r :: r in w.readers ==> r in w'.readers && w'.readers[r] == w.readers[r]) &&
            (forall i :: i in w.published ==> i in w'.published && w'.published[i] == w.published[i])
  {
    if e.RenameOk? {
      var x := w.writers[e.id];
      TmpUnpublished(s, w, x.key, x.phase.n);
    }
  }

  // ---------------------------------------------------------------------
  // What readers see
  // ---------------------------------------------------------------------

  /** Publication is atomic: whatever the writers do and wherever they fail, a final path
      is absent or names one complete image of its own key. */
  lemma FinalFilesComplete(s: Setup, w: World, es: seq<Event>, k: Key)
    requires Ok(s, w) && Possible(s, w, es)
    ensures var w' := End(s, w, es);
            s.Final(k) in w'.names ==>
              w'.names[s.Final(k)] in w'.data && s.image(k) == Some(w'.data[w'.names[s.Final(k)]])
  {
    RunKeepsOk(s, w, es);
  }

  /** A writer that has finished stands for a name: the final path of its key is there. */
  ghost predicate DonePublished(s: Setup, w: World) {
    forall id :: id in w.writers && w.writers[id].phase == Done(true) ==> s.Final(w.writers[id].key) in w.names
  }

  /** No step takes a final name away. */
  lemma StepKeepsFinalNames(s: Setup, w: World, e: Event, k: Key)
    ensures s.Final(k) in w.names ==> s.Final(k) in Do(s, w, e).names
  {
    if Enabled(s, w, e) && (e.RenameOk? || e.CleanUp?) {
      var x := w.writers[e.id];
      TmpIsNotFinal(s.data, x.key, s.pid, x.phase.n, k);
    }
  }

  lemma StepKeepsDone(s: Setup, w: World, e: Event)
    requires DonePublished(s, w)
    ensures DonePublished(s, Do(s, w, e))
  {
    var w' := Do(s, w, e);
    forall id | id in w'.writers && w'.writers[id].phase == Done(true)
      ensures s.Final(w'.writers[id].key) in w'.names
    {
      StepKeepsFinalNames(s, w, e, w'.writers[id].key);
      if Enabled(s, w, e) && e.RenameOk? && e.id == id {
        TmpIsNotFinal(s.data, w.writers[id].key, s.pid, w.writers[id].phase.n, w.writers[id].key);
      }
    }
  }

  lemma {:induction false} RunKeepsDone(s: Setup, w: World, es: seq<Event>)
    requires DonePublished(s, w)
    ensures DonePublished(s, End(s, w, es))
    decreases |es|
  {
    if es != [] {
      StepKeepsDone(s, w, es[0]);
      RunKeepsDone(s, Do(s, w, es[0]), es[1..]);
    }
  }

  /** A writer that reports success has published: along every run of a process the final path of
      its key is there and holds the complete image, from the step that finishes it on. */
  lemma FinishedIsPublished(s: Setup, w: World, es: seq<Event>, later: seq<Event>, id: int)
    requires Starting(s, w) && Possible(s, w, es) && Possible(s, End(s, w, es), later)
    requires var w1 := End(s, w, es); id in w1.writers && w1.writers[id].phase == Done(true)
    ensures var k := End(s, w, es).writers[id].key;
            var w2 := End(s, End(s, w, es), later);
            s.Final(k) in w2.names && w2.names[s.Final(k)] in w2.data &&
            s.image(k) == Some(w2.data[w2.names[s.Final(k)]])
  {
    var w1 := End(s, w, es);
    StartIsOk(s, w);
    RunKeepsOk(s, w, es);
    RunKeepsDone(s, w, es);
    RunKeepsFinalNames(s, w1, later, w1.writers[id].key);
    FinalFilesComplete(s, w1, later, w1.writers[id].key);
  }

  lemma {:induction false} RunKeepsFinalNames(s: Setup, w: World, es: seq<Event>, k: Key)
    requires s.Final(k) in w.names
    ensures s.Final(k) in End(s, w, es).names
    decreases |es|
  {
    if es != [] {
      StepKeepsFinalNames(s, w, es[0], k);
      RunKeepsFinalNames(s, Do(s, w, es[0]), es[1..], k);
    }
  }

  predicate Unfailed(w: World, id: int) {
    id in w.writers ==> w.writers[id].phase != Done(false) && !w.writers[id].phase.Cleaning?
  }

  lemma FirstFailure(s: Setup, w: World, e: Event, id: int)
    requires Unfailed(w, id) && !Unfailed(Do(s, w, e), id)
    ensures e == PrepareFails(id) || e == Fails(id)
  {
  }

  lemma {:induction false} FailureCaused(s: Setup, w: World, es: seq<Event>, id: int)
    requires Unfailed(w, id) && !Unfailed(End(s, w, es), id)
    ensures exists e :: e in es && (e == PrepareFails(id) || e == Fails(id))
    decreases |es|
  {
    var w' := Do(s, w, es[0]);
    assert es[0] in es;
    if Unfailed(w', id) {
      FailureCaused(s, w', es[1..], id);
      assert forall e :: e in es[1..] ==> e in es;
    } else {
      FirstFailure(s, w, es[0], id);
    }
  }

  /** A writer reports failure only after one of its own steps has failed. */
  lemma FailureHasCause(s: Setup, w: World, es: seq<Event>, id: int)
    requires Starting(s, w) && Possible(s, w, es)
    requires var w' := End(s, w, es); id in w'.writers && w'.writers[id].phase == Done(false)
    ensures exists e :: e in es && (e == PrepareFails(id) || e == Fails(id))
  {
    FailureCaused(s, w, es, id);
  }

  lemma FirstStep(s: Setup, w: World, e: Event, es: seq<Event>)
    requires Enabled(s, w, e) && Possible(s, Do(s, w, e), es)
    ensures Possible(s, w, [e] + es) && End(s, w, [e] + es) == End(s, Do(s, w, e), es)
  {
  }

  lemma OneStep(s: Setup, w: World, e: Event)
    requires Enabled(s, w, e)
    ensures Possible(s, w, [e]) && End(s, w, [e]) == Do(s, w, e)
  {
    FirstStep(s, w, e, []);
  }

  /** What a writer can still do once it has its file open and empty. */
  lemma CanFinish(s: Setup, w: World, id: int) returns (es: seq<Event>)
    requires id in w.writers && w.writers[id].phase.Writing? && w.writers[id].phase.written == 0
    requires var x := w.writers[id]; s.image(x.key).Some? && s.Tmp(x.key, x.phase.n) in w.names
    ensures Possible(s, w, es) && End(s, w, es).writers == w.writers[id := w.writers[id].(phase := Done(true))]
  {
    var whole := |s.image(w.writers[id].key).value|;
    var w1 := if whole == 0 then w else Do(s, w, WriteSome(id, whole));
    var w2 := Do(s, w1, CloseOk(id));
    OneStep(s, w2, RenameOk(id));
    FirstStep(s, w1, CloseOk(id), [RenameOk(id)]);
    es := [CloseOk(id)] + [RenameOk(id)];
    if whole > 0 {
      FirstStep(s, w, WriteSome(id, whole), es);
      es := [WriteSome(id, whole)] + es;
    }
  }

  lemma CanCreate(s: Setup, w: World, id: int) returns (es: seq<Event>)
    requires id in w.writers && w.writers[id].phase.Named? && s.image(w.writers[id].key).Some?
    ensures Possible(s, w, es) && End(s, w, es).writers == w.writers[id := w.writers[id].(phase := Done(true))]
  {
    var w' := Do(s, w, CreateOk(id));
    var rest := CanFinish(s, w', id);
    FirstStep(s, w, CreateOk(id), rest);
    es := [CreateOk(id)] + rest;
  }

  lemma CanPrepare(s: Setup, w: World, id: int) returns (es: seq<Event>)
    requires id in w.writers && w.writers[id].phase.Preparing? && s.image(w.writers[id].key).Some?
    ensures Possible(s, w, es) && End(s, w, es).writers == w.writers[id := w.writers[id].(phase := Done(true))]
  {
    var w' := Do(s, w, PickName(id));
    var rest := CanCreate(s, w', id);
    FirstStep(s, w, PickName(id), rest);
    es := [PickName(id)] + rest;
  }

  lemma CanPublish(s: Setup, w: World, id: int) returns (es: seq<Event>)
    requires id in w.writers && w.writers[id].phase.Checking? && s.image(w.writers[id].key).Some?
    ensures Possible(s, w, es) && End(s, w, es).writers == w.writers[id := w.writers[id].(phase := Done(true))]
    ensures s.Final(w.writers[id].key) in w.names ==> es == [SeeExists(id)]
  {
    if s.Final(w.writers[id].key) in w.names {
      OneStep(s, w, SeeExists(id));
      es := [SeeExists(id)];
    } else {
      var rest := CanPrepare(s, Do(s, w, SeeAbsent(id)), id);
      FirstStep(s, w, SeeAbsent(id), rest);
      es := [SeeAbsent(id)] + rest;
    }
  }

  /** In every world a new writer whose source is good can run to success, moving no other writer; it
      makes nothing when the file is there already. */
  lemma LoneWriterPublishes(s: Setup, w: World, id: int, k: Key) returns (es: seq<Event>)
    requires id !in w.writers && s.image(k).Some?
    ensures Possible(s, w, es) && End(s, w, es).writers == w.writers[id := Writer(k, Done(true))]
    ensures s.Final(k) in w.names ==> es == [Begin(id, k), SeeExists(id)]
  {
    var rest := CanPublish(s, Do(s, w, Begin(id, k)), id);
    FirstStep(s, w, Begin(id, k), rest);
    es := [Begin(id, k)] + rest;
  }

  /** A reader that has opened a final path keeps reading the complete image of its key,
      however many writers replace the file while it reads. */
  lemma OpenReaderSeesOneImage(s: Setup, w: World, r: int, k: Key, es: seq<Event>)
    requires Ok(s, w) && Enabled(s, w, OpenFinal(r, k)) && Possible(s, Do(s, w, OpenFinal(r, k)), es)
    ensures var w' := End(s, Do(s, w, OpenFinal(r, k)), es);
            r in w'.readers && w'.readers[r] in w'.data && s.image(k) == Some(w'.data[w'.readers[r]])
  {
    StepKeepsOk(s, w, OpenFinal(r, k));
    RunKeepsOk(s, Do(s, w, OpenFinal(r, k)), es);
  }

  /** Temporary names in flight are pairwise distinct, and none of them is a final name. */
  lemma TemporaryNamesDistinct(s: Setup, w: World, es: seq<Event>, i: int, j: int, k: Key)
    requires Ok(s, w) && Possible(s, w, es)
    requires var w' := End(s, w, es);
             i in w'.writers && j in w'.writers && w'.writers[i].InFlight() && w'.writers[j].InFlight() && i != j
    ensures var w' := End(s, w, es);
            var p := s.Tmp(w'.writers[i].key, w'.writers[i].Number());
            p != s.Tmp(w'.writers[j].key, w'.writers[j].Number()) && p != s.Final(k)
  {
    RunKeepsOk(s, w, es);
    var w' := End(s, w, es);
    OwnTmp(s, w', i, j);
    TmpIsNotFinal(s.data, w'.writers[i].key, s.pid, w'.writers[i].Number(), k);
  }

  // ---------------------------------------------------------------------
  // Nothing is left behind
  // ---------------------------------------------------------------------

  /** Every temporary file of this process belongs to a writer in flight. */
  ghost predicate TmpOwned(s: Setup, w: World) {
    forall k, n: nat :: s.Tmp(k, n) in w.names ==>
      exists id :: id in w.writers && w.writers[id].key == k && w.writers[id].InFlight() && w.writers[id].Number() == n
  }

  /** A temporary file appears only through its own writer. */
  lemma NewTmpIsCreated(s: Setup, w: World, e: Event, k: Key, n: nat)
    requires Enabled(s, w, e) && s.Tmp(k, n) in Do(s, w, e).names && s.Tmp(k, n) !in w.names
    ensures e.CreateOk? && e.id in Do(s, w, e).writers
    ensures var x := Do(s, w, e).writers[e.id]; x.key == k && x.InFlight() && x.Number() == n
  {
    if e.RenameOk? {
      TmpIsNotFinal(s.data, k, s.pid, n, w.writers[e.id].key);
    }
    assert e.CreateOk?;
    TmpPathInjective(s.data, k, s.pid, n, w.writers[e.id].key, w.writers[e.id].phase.n);
  }

  lemma StepKeepsOwned(s: Setup, w: World, e: Event)
    requires Ok(s, w) && Enabled(s, w, e) && TmpOwned(s, w)
    requires e.CleanUp? ==> e.removed
    ensures TmpOwned(s, Do(s, w, e))
  {
    var w' := Do(s, w, e);
    forall k, n: nat | s.Tmp(k, n) in w'.names
      ensures exists id :: id in w'.writers && w'.writers[id].key == k && w'.writers[id].InFlight() &&
                           w'.writers[id].Number() == n
    {
      if s.Tmp(k, n) in w.names {
        var id :| id in w.writers && w.writers[id].key == k && w.writers[id].InFlight() && w.writers[id].Number() == n;
        assert id in w'.writers && w'.writers[id].key == k;
      } else {
        NewTmpIsCreated(s, w, e, k, n);
        assert e.id in w'.writers;
      }
    }
  }

  lemma {:induction false} RunKeepsOwned(s: Setup, w: World, es: seq<Event>)
    requires Ok(s, w) && Possible(s, w, es) && TmpOwned(s, w)
    requires forall e :: e in es && e.CleanUp? ==> e.removed
    ensures TmpOwned(s, End(s, w, es))
    decreases |es|
  {
    if es != [] {
      assert es[0] in es;
      StepKeepsOk(s, w, es[0]);
      StepKeepsOwned(s, w, es[0]);
      RunKeepsOwned(s, Do(s, w, es[0]), es[1..]);
    }
  }

  /** When no writer is in flight no temporary file remains, provided the guards' removals succeed. */
  lemma NothingLeftBehind(s: Setup, w: World, es: seq<Event>, k: Key, n: nat)
    requires Ok(s, w) && Possible(s, w, es) && TmpOwned(s, w)
    requires forall e :: e in es && e.CleanUp? ==> e.removed
    requires forall id :: id in End(s, w, es).writers ==> !End(s, w, es).writers[id].InFlight()
    ensures s.Tmp(k, n) !in End(s, w, es).names
  {
    RunKeepsOwned(s, w, es);
  }

  // ---------------------------------------------------------------------
  // Where a process starts
  // ---------------------------------------------------------------------

  ghost predicate HoldsImage(s: Setup, w: World, k: Key)
    requires s.Final(k) in w.names
  {
    var i := w.names[s.Final(k)];
    i in w.published && i in w.data && w.published[i] == k && s.image(k) == Some(w.data[i])
  }

  /** No writer and no reader yet; the final paths that are taken hold complete images, and no
      temporary file carries this process's number. */
  ghost predicate Starting(s: Setup, w: World) {
    && w.writers == map[] && w.readers == map[] && NamesOk(w)
    && (forall k :: s.Final(k) in w.names ==> HoldsImage(s, w, k))
    && (forall i :: i in w.published ==>
          s.Final(w.published[i]) in w.names && w.names[s.Final(w.published[i])] == i)
    && (forall k, n: nat :: s.Tmp(k, n) !in w.names)
  }

  /** Such a world satisfies the invariants that the results above ask for, and the files an
      earlier process left make the next process start in one. */
  lemma StartIsOk(s: Setup, w: World)
    requires Starting(s, w)
    ensures Ok(s, w) && TmpOwned(s, w)
  {
    forall i | i in w.published
      ensures i in w.data && s.image(w.published[i]) == Some(w.data[i])
    {
      assert HoldsImage(s, w, w.published[i]);
    }
    forall p | p in w.names && w.names[p] in w.published
      ensures p == s.Final(w.published[w.names[p]])
    {
      assert s.Final(w.published[w.names[p]]) in w.names;
    }
    forall k | s.Final(k) in w.names
      ensures w.names[s.Final(k)] in w.published && w.published[w.names[s.Final(k)]] == k
    {
      assert HoldsImage(s, w, k);
    }
  }

  /** What the next process finds: the names that are left, and the inodes that still have a final one. */
  ghost function Restarted(s: Setup, w: World): World {
    var final := map i | i in w.published && s.Final(w.published[i]) in w.names
                           && w.names[s.Final(w.published[i])] == i :: w.published[i];
    World(w.names, w.data, w.next, 0, map[], final, map[])
  }

  /** An empty data directory is such a start, and so is what any process leaves, for a process
      whose number no leftover temporary file carries. */
  lemma EveryStartIsOk(s: Setup, w: World, es: seq<Event>, pid: nat)
    requires Ok(s, w) && Possible(s, w, es)
    ensures Starting(s, World(map[], map[], 0, 0, map[], map[], map[]))
    ensures var next := s.(pid := pid);
            (forall k, n: nat :: next.Tmp(k, n) !in End(s, w, es).names) ==>
              Starting(next, Restarted(s, End(s, w, es)))
  {
    RunKeepsOk(s, w, es);
    var next, w' := s.(pid := pid), Restarted(s, End(s, w, es));
    forall k | next.Final(k) in w'.names
      ensures HoldsImage(next, w', k)
    {
      assert next.Final(k) == s.Final(k);
    }
  }
}
