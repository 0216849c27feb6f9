/** The library tree and the scanner's pre-order walk over it (src/scan.rs:96-181). */
module Walk {
  import opened Wrappers
  import opened Catalog

  /** A directory entry as the walker yields it. `Other` is anything that is neither a
      directory nor a regular file, `Broken` an entry the walker reports as an error. */
  datatype Node =
    | Dir(name: string, info: DirInfo, kids: seq<Node>)
    | File(name: string, file: FileInfo)
    | Other(name: string)
    | Broken(name: string)

  /** An entry together with the directory it was found in. */
  datatype Item = Item(dir: Path, node: Node) {
    function At(): Path { dir + [node.name] }
  }

  function Items(dir: Path, kids: seq<Node>): (r: seq<Item>)
    ensures |r| == |kids| && forall i :: 0 <= i < |kids| ==> r[i] == Item(dir, kids[i])
  {
    seq(|kids|, i requires 0 <= i < |kids| => Item(dir, kids[i]))
  }

  function Below(it: Item): seq<Item> {
    if it.node.Dir? then Items(it.At(), it.node.kids) else []
  }

  const IGNORED_DIRS: set<string> := {"@eaDir", "__MACOSX", ".thumbnails", "__Panels"}

  predicate Hidden(name: string) {
    name != [] && name[0] == '.'
  }

  predicate VisibleDir(n: Node) {
    n.Dir? && n.name !in IGNORED_DIRS && !Hidden(n.name)
  }

  predicate VisibleBook(n: Node) {
    n.File? && !Hidden(n.name) && Supported(n.name)
  }

  /** The entries for which the scanner calls an upsert. */
  predicate Attempted(n: Node) {
    VisibleDir(n) || VisibleBook(n)
  }

  /** A directory is entered unless its name starts with a dot or is one that other software keeps. */
  lemma VisibleDirIff(n: Node)
    ensures VisibleDir(n) <==>
            n.Dir? && (forall rest :: n.name != "." + rest) &&
            n.name != "@eaDir" && n.name != "__MACOSX" && n.name != "__Panels"
  {
    DottedIff(n.name);
  }

  /** A file is a book if its name does not start with a dot and has an archive extension. */
  lemma VisibleBookIff(n: Node)
    ensures VisibleBook(n) <==>
            n.File? && (forall rest :: n.name != "." + rest) && exists stem, ext :: ArchiveName(n.name, stem, ext)
  {
    DottedIff(n.name);
    SupportedIff(n.name);
  }

  lemma DottedIff(name: string)
    ensures Hidden(name) <==> exists rest :: name == "." + rest
  {
    if Hidden(name) {
      assert name == "." + name[1..];
    }
  }

  datatype Entry = Entry(node: Node, outcome: Outcome)

  /** The state of a walk: the tables, the `path_to_id` map, and a record of every upsert so far. */
  datatype State = State(t: Tables, ids: map<Path, int>, log: map<Path, Entry>)

  /** One turn of the walk's loop, and whether the walker then descends into the entry. */
  function Step(c: Config, w: State, it: Item): (State, bool) {
    var n, p := it.node, it.At();
    if n.Dir? then
      if n.name in IGNORED_DIRS || Hidden(n.name) then (w, false)
      else if it.dir !in w.ids then (w, true)
      else
        var (t', id) := UpsertFolder(c, w.t, p, Some(w.ids[it.dir]), None, n.info);
        if id.None? then (w.(log := w.log[p := Entry(n, Failed)]), false)
        else (State(t', w.ids[p := id.value], w.log[p := Entry(n, Stamped)]), true)
    else if n.File? then
      if Hidden(n.name) || !Supported(n.name) || it.dir !in w.ids then (w, false)
      else
        var (t', o) := UpsertBook(c, w.t, p, w.ids[it.dir], n.file);
        (State(t', w.ids, w.log[p := Entry(n, o)]), false)
    else (w, false)
  }

  function NodeSize(n: Node): nat
    decreases n, 1
  {
    if n.Dir? then 1 + NodesSize(n.kids) else 1
  }

  function NodesSize(ns: seq<Node>): nat
    decreases ns, 0
  {
    if ns == [] then 0 else NodeSize(ns[0]) + NodesSize(ns[1..])
  }

  function Size(work: seq<Item>): nat {
    if work == [] then 0 else NodeSize(work[0].node) + Size(work[1..])
  }

  lemma {:induction false} SizeOfConcat(a: seq<Item>, b: seq<Item>)
    ensures Size(a + b) == Size(a) + Size(b)
  {
    if a == [] {
      assert a + b == b;
    } else {
      SizeOfConcat(a[1..], b);
      assert (a + b)[1..] == a[1..] + b;
    }
  }

  lemma {:induction false} SizeOfItems(dir: Path, ns: seq<Node>)
    ensures Size(Items(dir, ns)) == NodesSize(ns)
  {
    if ns != [] {
      SizeOfItems(dir, ns[1..]);
      assert Items(dir, ns)[1..] == Items(dir, ns[1..]);
    }
  }

  /** Yielding an entry, whether or not it is descended into, uses up the work list. */
  lemma SizeShrinks(work: seq<Item>, descend: bool)
    requires work != []
    ensures Size((if descend then Below(work[0]) else []) + work[1..]) < Size(work)
  {
    var it := work[0];
    SizeOfConcat(if descend then Below(it) else [], work[1..]);
    if it.node.Dir? {
      SizeOfItems(it.At(), it.node.kids);
    }
  }

  function Next(c: Config, w: State, work: seq<Item>): (State, seq<Item>)
    requires work != []
  {
    var (w', descend) := Step(c, w, work[0]);
    (w', (if descend then Below(work[0]) else []) + work[1..])
  }

  /** The whole walk from a work list. */
  function Drive(c: Config, w: State, work: seq<Item>): State
    decreases Size(work)
  {
    if work == [] then w
    else
      SizeShrinks(work, Step(c, w, work[0]).1);
      var (w', work') := Next(c, w, work);
      Drive(c, w', work')
  }

  // ---------------------------------------------------------------------
  // What every turn keeps
  // ---------------------------------------------------------------------

  /** `path_to_id` holds ids of rows that are in the table. */
  predicate IdsCurrent(w: State) {
    forall d :: d in w.ids ==> d in w.t.folders && w.t.folders[d].id == w.ids[d]
  }

  /** Whatever entry comes next, even one the tree does not hold, a turn of the
      loop keeps the tree, and stamps or leaves each row. */
  lemma StepKeepsTree(c: Config, w: State, it: Item)
    requires Wellformed(w.t) && IdsCurrent(w)
    ensures var w' := Step(c, w, it).0;
            Wellformed(w'.t) && IdsCurrent(w') &&
            w.t.folders.Keys <= w'.t.folders.Keys && w.t.books.Keys <= w'.t.books.Keys
  {
    var n, p := it.node, it.At();
    assert Parent(p) == it.dir;
    if VisibleDir(n) && it.dir in w.ids {
      UpsertFolderKeepsTree(c, w.t, p, Some(w.ids[it.dir]), None, n.info);
    } else if VisibleBook(n) && it.dir in w.ids {
      UpsertBookKeepsTree(c, w.t, p, w.ids[it.dir], n.file);
    }
  }
}
