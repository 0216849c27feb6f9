/** The LRU cache of opened archives, opened outside the lock (src/archive/mod.rs:67-92). */
module ArchiveCache {
  import opened Wrappers
  import opened Pages

  /** An opened archive: where it was opened from, and its page list. */
  datatype Book = Book(path: string, pages: seq<PageEntry>)

  datatype Slot = Slot(hash: string, book: Book)

  /** Position of a hash in the cache, or the length. */
  function Position(slots: seq<Slot>, hash: string): (i: nat)
    ensures i <= |slots| && (i < |slots| ==> slots[i].hash == hash)
    ensures forall k :: 0 <= k < i ==> slots[k].hash != hash
  {
    if slots == [] || slots[0].hash == hash then 0 else 1 + Position(slots[1..], hash)
  }

  function Without(slots: seq<Slot>, hash: string): seq<Slot> {
    var i := Position(slots, hash);
    if i == |slots| then slots else slots[..i] + slots[i + 1..]
  }

  function Clip<T>(s: seq<T>, n: nat): seq<T> {
    if |s| > n then s[..n] else s
  }

  /** Most recently used first; putting evicts from the far end. */
  function PutFront(slots: seq<Slot>, capacity: nat, slot: Slot): seq<Slot> {
    Clip([slot] + Without(slots, slot.hash), capacity)
  }

  /** What opening a path gives; `None` is an error. */
  type Disk = string -> Option<seq<PageEntry>>

  class Cache {
    const capacity: nat
    var slots: seq<Slot>

    constructor (requested: nat)
      ensures capacity == (if requested > 1 then requested else 1) && slots == []
    {
      capacity := if requested > 1 then requested else 1;
      slots := [];
    }

    /** A hit moves the entry to the front. */
    method Get(hash: string) returns (r: Option<Book>)
      modifies this
      ensures r.Some? <==> exists s :: s in old(slots) && s.hash == hash
      ensures r.None? ==> slots == old(slots)
      ensures r.Some? ==>
                var i := Position(old(slots), hash);
                i < |old(slots)| && r.value == old(slots)[i].book &&
                slots == [old(slots)[i]] + Without(old(slots), hash)
    {
      var i := Position(slots, hash);
      if i == |slots| {
        return None;
      }
      assert slots[i] in slots;
      r := Some(slots[i].book);
      slots := [slots[i]] + (slots[..i] + slots[i + 1..]);
    }

    method Put(hash: string, book: Book)
      requires capacity >= 1
      modifies this
      ensures slots == PutFront(old(slots), capacity, Slot(hash, book))
    {
      var i := Position(slots, hash);
      var rest := if i == |slots| then slots else slots[..i] + slots[i + 1..];
      slots := [Slot(hash, book)] + rest;
      if |slots| > capacity {
        slots := slots[..capacity];
      }
    }

    /** The two locked steps and the open between them, run by one request alone. */
    method GetOrOpen(hash: string, path: string, disk: Disk) returns (r: Option<Book>)
      requires capacity >= 1
      modifies this
      ensures (exists s :: s in old(slots) && s.hash == hash) ==>
                var i := Position(old(slots), hash);
                i < |old(slots)| && r == Some(old(slots)[i].book) &&
                slots == [old(slots)[i]] + Without(old(slots), hash)
      ensures !(exists s :: s in old(slots) && s.hash == hash) ==>
                match disk(path)
                case None => r == None && slots == old(slots)
                case Some(pages) =>
                  r == Some(Book(path, pages)) &&
                  slots == PutFront(old(slots), capacity, Slot(hash, Book(path, pages)))
    {
      r := Get(hash);
      if r.Some? {
        return;
      }
      var listing := disk(path);
      if listing.None? {
        return None;
      }
      var book := Book(path, listing.value);
      Put(hash, book);
      return Some(book);
    }
  }

  // ---------------------------------------------------------------------
  // Interleaved requests
  // ---------------------------------------------------------------------

  datatype Request = Request(hash: string, path: string)

  datatype Phase = Waiting | Missed | Opened(book: Book) | Answered(result: Option<Book>)

  /** The cache, where each request is, and the hashes touched so far, latest last. */
  datatype Shared = Shared(slots: seq<Slot>, phases: map<int, Phase>, touched: seq<string>)

  datatype Step = GetStep(id: int) | OpenStep(id: int) | PutStep(id: int)

  function Take(capacity: nat, disk: Disk, requests: map<int, Request>, w: Shared, s: Step): Shared
    requires w.phases.Keys == requests.Keys
  {
    if s.id !in requests then w
    else
      var q, phase := requests[s.id], w.phases[s.id];
      match s
      case GetStep(id) =>
        if !phase.Waiting? then w
        else
          var i := Position(w.slots, q.hash);
          if i == |w.slots| then w.(phases := w.phases[id := Missed])
          else Shared([w.slots[i]] + Without(w.slots, q.hash),
                      w.phases[id := Answered(Some(w.slots[i].book))], w.touched + [q.hash])
      case OpenStep(id) =>
        if !phase.Missed? then w
        else
          var listing := disk(q.path);
          w.(phases := w.phases[id := if listing.None? then Answered(None) else Opened(Book(q.path, listing.value))])
      case PutStep(id) =>
        if !phase.Opened? then w
        else Shared(PutFront(w.slots, capacity, Slot(q.hash, phase.book)),
                    w.phases[id := Answered(Some(phase.book))], w.touched + [q.hash])
  }

  function After(capacity: nat, disk: Disk, requests: map<int, Request>, steps: seq<Step>): (w: Shared)
    ensures w.phases.Keys == requests.Keys
    decreases |steps|
  {
    if steps == [] then Shared([], map id | id in requests :: Waiting, [])
    else Take(capacity, disk, requests, After(capacity, disk, requests, steps[..|steps| - 1]), steps[|steps| - 1])
  }

  // ---------------------------------------------------------------------
  // Transparency
  // ---------------------------------------------------------------------

  /** Requests carry the hash of their file, and files with one hash open alike. */
  ghost predicate HashesTell(hashOf: string -> string, disk: Disk, requests: map<int, Request>) {
    (forall id :: id in requests ==> hashOf(requests[id].path) == requests[id].hash) &&
    (forall p, q :: hashOf(p) == hashOf(q) ==> disk(p) == disk(q))
  }

  /** The book was opened from a file with that hash, and lists what every such file does. */
  ghost predicate Genuine(hashOf: string -> string, disk: Disk, hash: string, book: Book) {
    hashOf(book.path) == hash && forall p :: hashOf(p) == hash ==> disk(p) == Some(book.pages)
  }

  ghost predicate AllGenuine(hashOf: string -> string, disk: Disk, slots: seq<Slot>) {
    forall s :: s in slots ==> Genuine(hashOf, disk, s.hash, s.book)
  }

  ghost predicate PhaseGenuine(hashOf: string -> string, disk: Disk, q: Request, phase: Phase) {
    match phase
    case Opened(b) => Genuine(hashOf, disk, q.hash, b)
    case Answered(r) => if r.None? then disk(q.path) == None else Genuine(hashOf, disk, q.hash, r.value)
    case _ => true
  }

  lemma WithoutIsPart(slots: seq<Slot>, hash: string)
    ensures forall s :: s in Without(slots, hash) ==> s in slots
  {
  }

  lemma PutGenuine(capacity: nat, hashOf: string -> string, disk: Disk, slots: seq<Slot>, slot: Slot)
    requires AllGenuine(hashOf, disk, slots) && Genuine(hashOf, disk, slot.hash, slot.book)
    ensures AllGenuine(hashOf, disk, PutFront(slots, capacity, slot))
  {
    WithoutIsPart(slots, slot.hash);
    var all := [slot] + Without(slots, slot.hash);
    forall x | x in Clip(all, capacity)
      ensures Genuine(hashOf, disk, x.hash, x.book)
    {
      assert x in all;
      assert x == slot || x in slots;
    }
  }

  lemma HitGenuine(hashOf: string -> string, disk: Disk, slots: seq<Slot>, hash: string)
    requires AllGenuine(hashOf, disk, slots) && Position(slots, hash) < |slots|
    ensures var slot := slots[Position(slots, hash)];
            Genuine(hashOf, disk, hash, slot.book) && AllGenuine(hashOf, disk, [slot] + Without(slots, hash))
  {
    WithoutIsPart(slots, hash);
    assert slots[Position(slots, hash)] in slots;
  }

  lemma TakeGenuine(capacity: nat, hashOf: string -> string, disk: Disk, requests: map<int, Request>,
                    w: Shared, s: Step)
    requires HashesTell(hashOf, disk, requests) && w.phases.Keys == requests.Keys
    requires AllGenuine(hashOf, disk, w.slots)
    requires forall id :: id in requests ==> PhaseGenuine(hashOf, disk, requests[id], w.phases[id])
    ensures var w' := Take(capacity, disk, requests, w, s);
            AllGenuine(hashOf, disk, w'.slots) &&
            forall id :: id in requests ==> PhaseGenuine(hashOf, disk, requests[id], w'.phases[id])
  {
    if s.id in requests {
      var q, phase := requests[s.id], w.phases[s.id];
      assert PhaseGenuine(hashOf, disk, q, phase);
      match s {
        case GetStep(_) =>
          if Position(w.slots, q.hash) < |w.slots| {
            HitGenuine(hashOf, disk, w.slots, q.hash);
          }
        case OpenStep(_) =>
        case PutStep(_) =>
          if phase.Opened? {
            PutGenuine(capacity, hashOf, disk, w.slots, Slot(q.hash, phase.book));
          }
      }
    }
  }

  /** In every interleaving of get, open and put steps, a request is answered with the page list
      that opening its own path gives, for reading from a file of its own hash, and fails only if
      that open fails. */
  lemma {:induction false} CacheIsTransparent(capacity: nat, hashOf: string -> string, disk: Disk,
                                              requests: map<int, Request>, steps: seq<Step>, id: int)
    requires HashesTell(hashOf, disk, requests) && id in requests
    ensures var w := After(capacity, disk, requests, steps);
            w.phases[id].Answered? ==>
              match w.phases[id].result
              case None => disk(requests[id].path) == None
              case Some(book) =>
                disk(requests[id].path) == Some(book.pages) && hashOf(book.path) == requests[id].hash
  {
    EverythingGenuine(capacity, hashOf, disk, requests, steps);
    assert PhaseGenuine(hashOf, disk, requests[id], After(capacity, disk, requests, steps).phases[id]);
  }

  lemma {:induction false} EverythingGenuine(capacity: nat, hashOf: string -> string, disk: Disk,
                                             requests: map<int, Request>, steps: seq<Step>)
    requires HashesTell(hashOf, disk, requests)
    ensures var w := After(capacity, disk, requests, steps);
            AllGenuine(hashOf, disk, w.slots) &&
            forall id :: id in requests ==> PhaseGenuine(hashOf, disk, requests[id], w.phases[id])
    decreases |steps|
  {
    if steps != [] {
      var before := steps[..|steps| - 1];
      EverythingGenuine(capacity, hashOf, disk, requests, before);
      TakeGenuine(capacity, hashOf, disk, requests, After(capacity, disk, requests, before), steps[|steps| - 1]);
    }
  }

  /** The entries of the archive at a path, `None` if it is not an archive or cannot be read. */
  type Archives = string -> Option<seq<ArchiveEntry>>

  ghost predicate OpensAs(archives: Archives, disk: Disk) {
    forall p ::
      var es := archives(p);
      if es.None? then disk(p) == None else IsOpened(es.value, disk(p))
  }

  /** Through the cache every request gets the image entries of its own archive in stable natural
      order, and an error exactly if that archive cannot be opened: in every interleaving, if the
      requests carry the hash of their file and files of one hash have the same entries. */
  lemma AnswersAreSorted(capacity: nat, hashOf: string -> string, archives: Archives, disk: Disk,
                         requests: map<int, Request>, steps: seq<Step>, id: int)
    requires OpensAs(archives, disk) && id in requests
    requires forall i :: i in requests ==> hashOf(requests[i].path) == requests[i].hash
    requires forall p, q :: hashOf(p) == hashOf(q) ==> archives(p) == archives(q)
    ensures var phase := After(capacity, disk, requests, steps).phases[id];
            var es := archives(requests[id].path);
            phase.Answered? ==>
              if phase.result.None? then es.None? || IsOpened(es.value, None)
              else es.Some? && IsOpened(es.value, Some(phase.result.value.pages))
  {
    forall p, q | hashOf(p) == hashOf(q)
      ensures disk(p) == disk(q)
    {
      if archives(p).Some? {
        OpenedIsUnique(archives(p).value, disk(p), disk(q));
      }
    }
    CacheIsTransparent(capacity, hashOf, disk, requests, steps, id);
  }

  // ---------------------------------------------------------------------
  // Least recently used
  // ---------------------------------------------------------------------

  function Keys(slots: seq<Slot>): (r: seq<string>)
    ensures |r| == |slots| && forall i :: 0 <= i < |slots| ==> r[i] == slots[i].hash
  {
    seq(|slots|, i requires 0 <= i < |slots| => slots[i].hash)
  }

  function Erase(s: seq<string>, k: string): seq<string> {
    if s == [] then [] else if s[0] == k then Erase(s[1..], k) else [s[0]] + Erase(s[1..], k)
  }

  /** The distinct hashes of a history, latest touch first. */
  function Recent(touched: seq<string>): seq<string> {
    if touched == [] then []
    else [touched[|touched| - 1]] + Erase(Recent(touched[..|touched| - 1]), touched[|touched| - 1])
  }

  predicate Distinct(s: seq<string>) {
    forall i, j :: 0 <= i < j < |s| ==> s[i] != s[j]
  }

  lemma DistinctHead(s: seq<string>)
    requires Distinct(s) && s != []
    ensures s[0] !in s[1..]
  {
    assert forall j :: 0 <= j < |s[1..]| ==> s[1..][j] == s[j + 1];
  }

  lemma {:induction false} EraseFacts(s: seq<string>, k: string)
    ensures k !in Erase(s, k) && |Erase(s, k)| <= |s|
    ensures forall x :: x in Erase(s, k) <==> x in s && x != k
    ensures Distinct(s) ==> Distinct(Erase(s, k))
    ensures k !in s ==> Erase(s, k) == s
  {
    if s != [] {
      var rest := s[1..];
      EraseFacts(rest, k);
      assert forall x :: x in s <==> x == s[0] || x in rest;
      if Distinct(s) {
        assert Distinct(rest);
        DistinctHead(s);
      }
    }
  }

  lemma {:induction false} EraseAt(s: seq<string>, k: string, i: nat)
    requires Distinct(s) && i < |s| && s[i] == k
    ensures Erase(s, k) == s[..i] + s[i + 1..]
  {
    var rest := s[1..];
    assert Distinct(rest);
    if i == 0 {
      DistinctHead(s);
      EraseFacts(rest, k);
      assert s[..0] + s[1..] == rest;
    } else {
      EraseAt(rest, k, i - 1);
      assert s[0] != k;
      assert [s[0]] + (rest[..i - 1] + rest[i..]) == s[..i] + s[i + 1..];
    }
  }

  lemma {:induction false} RecentIsDistinct(touched: seq<string>)
    ensures Distinct(Recent(touched))
    decreases |touched|
  {
    if touched != [] {
      var before, k := touched[..|touched| - 1], touched[|touched| - 1];
      RecentIsDistinct(before);
      EraseFacts(Recent(before), k);
      DistinctCons(k, Erase(Recent(before), k));
    }
  }

  lemma DistinctCons(k: string, e: seq<string>)
    requires Distinct(e) && k !in e
    ensures Distinct([k] + e)
  {
    var s := [k] + e;
    forall i, j | 0 <= i < j < |s|
      ensures s[i] != s[j]
    {
      assert s[j] == e[j - 1] && e[j - 1] in e;
    }
  }

  lemma KeysWithout(slots: seq<Slot>, hash: string)
    requires Distinct(Keys(slots))
    ensures Keys(Without(slots, hash)) == Erase(Keys(slots), hash)
  {
    var i := Position(slots, hash);
    if i < |slots| {
      EraseAt(Keys(slots), hash, i);
    } else {
      EraseFacts(Keys(slots), hash);
    }
  }

  lemma EraseInsideClip(s: seq<string>, n: nat, k: string, i: nat)
    requires Distinct(s) && i < |s| && i < n && s[i] == k
    ensures [k] + Erase(Clip(s, n), k) == Clip([k] + Erase(s, k), n)
  {
    var c := Clip(s, n);
    assert Distinct(c) && c[i] == k;
    EraseAt(c, k, i);
    EraseAt(s, k, i);
    RotateClip(s, n, k, i);
  }

  lemma RotateClip(s: seq<string>, n: nat, k: string, i: nat)
    requires i < |s| && i < n
    ensures var c := Clip(s, n);
            i < |c| && [k] + (c[..i] + c[i + 1..]) == Clip([k] + (s[..i] + s[i + 1..]), n)
  {
    var c := Clip(s, n);
    var short, long := [k] + (c[..i] + c[i + 1..]), Clip([k] + (s[..i] + s[i + 1..]), n);
    assert |short| == |long|;
    assert forall j :: 0 <= j < |short| ==> short[j] == long[j];
  }

  lemma EraseBeyondClip(s: seq<string>, n: nat, k: string)
    requires Distinct(s) && 0 < n && k !in Clip(s, n)
    ensures Clip([k] + Erase(Clip(s, n), k), n) == Clip([k] + Erase(s, k), n)
  {
    var c := Clip(s, n);
    EraseFacts(c, k);
    if k in s {
      var i :| 0 <= i < |s| && s[i] == k;
      EraseAt(s, k, i);
    } else {
      EraseFacts(s, k);
    }
  }

  lemma EraseOfClip(s: seq<string>, n: nat, k: string)
    requires Distinct(s) && 0 < n
    ensures Clip([k] + Erase(Clip(s, n), k), n) == Clip([k] + Erase(s, k), n)
    ensures k in Clip(s, n) ==> [k] + Erase(Clip(s, n), k) == Clip([k] + Erase(s, k), n)
  {
    if k in Clip(s, n) {
      var i :| 0 <= i < |Clip(s, n)| && Clip(s, n)[i] == k;
      EraseInsideClip(s, n, k, i);
    } else {
      EraseBeyondClip(s, n, k);
    }
  }

  lemma KeysOfPut(slots: seq<Slot>, capacity: nat, slot: Slot)
    requires Distinct(Keys(slots))
    ensures Keys(PutFront(slots, capacity, slot)) == Clip([slot.hash] + Erase(Keys(slots), slot.hash), capacity)
  {
    KeysWithout(slots, slot.hash);
    assert Keys([slot] + Without(slots, slot.hash)) == [slot.hash] + Keys(Without(slots, slot.hash));
  }

  lemma DistinctClip(s: seq<string>, n: nat)
    requires Distinct(s)
    ensures Distinct(Clip(s, n))
  {
  }

  lemma KeysOfHit(slots: seq<Slot>, hash: string)
    requires Distinct(Keys(slots)) && Position(slots, hash) < |slots|
    ensures hash in Keys(slots)
    ensures Keys([slots[Position(slots, hash)]] + Without(slots, hash)) == [hash] + Erase(Keys(slots), hash)
  {
    KeysWithout(slots, hash);
    var slot := slots[Position(slots, hash)];
    assert Keys([slot] + Without(slots, hash)) == [slot.hash] + Keys(Without(slots, hash));
    assert Keys(slots)[Position(slots, hash)] == hash;
  }

  lemma TouchStep(capacity: nat, disk: Disk, requests: map<int, Request>, w: Shared, s: Step)
    requires 0 < capacity && w.phases.Keys == requests.Keys
    requires Keys(w.slots) == Clip(Recent(w.touched), capacity)
    ensures var w' := Take(capacity, disk, requests, w, s); Keys(w'.slots) == Clip(Recent(w'.touched), capacity)
  {
    var w' := Take(capacity, disk, requests, w, s);
    if w'.touched != w.touched {
      var h := requests[s.id].hash;
      assert w'.touched[..|w'.touched| - 1] == w.touched;
      RecentIsDistinct(w.touched);
      DistinctClip(Recent(w.touched), capacity);
      EraseOfClip(Recent(w.touched), capacity, h);
      if s.GetStep? {
        KeysOfHit(w.slots, h);
      } else {
        KeysOfPut(w.slots, capacity, Slot(h, w.phases[s.id].book));
      }
    }
  }

  lemma {:induction false} SlotsAreRecent(capacity: nat, disk: Disk, requests: map<int, Request>, steps: seq<Step>)
    requires 0 < capacity
    ensures var w := After(capacity, disk, requests, steps); Keys(w.slots) == Clip(Recent(w.touched), capacity)
    decreases |steps|
  {
    if steps != [] {
      var before := steps[..|steps| - 1];
      SlotsAreRecent(capacity, disk, requests, before);
      TouchStep(capacity, disk, requests, After(capacity, disk, requests, before), steps[|steps| - 1]);
    }
  }

  predicate IsServed(phase: Phase) {
    phase.Answered? && phase.result.Some?
  }

  /** The hashes of the requests answered with a book, in the order of the answers. */
  function Served(capacity: nat, disk: Disk, requests: map<int, Request>, steps: seq<Step>): seq<string>
    decreases |steps|
  {
    if steps == [] then []
    else
      var before, id := steps[..|steps| - 1], steps[|steps| - 1].id;
      Served(capacity, disk, requests, before) +
      if id in requests && IsServed(After(capacity, disk, requests, steps).phases[id]) &&
         !IsServed(After(capacity, disk, requests, before).phases[id])
      then [requests[id].hash]
      else []
  }

  lemma {:induction false} TouchedIsServed(capacity: nat, disk: Disk, requests: map<int, Request>, steps: seq<Step>)
    ensures After(capacity, disk, requests, steps).touched == Served(capacity, disk, requests, steps)
    decreases |steps|
  {
    if steps != [] {
      TouchedIsServed(capacity, disk, requests, steps[..|steps| - 1]);
    }
  }

  /** In every interleaving the cache holds exactly the hashes last served, without repetition and
      as many as fit, latest first: eviction takes the least recently used. */
  lemma CacheIsLru(capacity: nat, disk: Disk, requests: map<int, Request>, steps: seq<Step>)
    requires 0 < capacity
    ensures var w, recent := After(capacity, disk, requests, steps), Recent(Served(capacity, disk, requests, steps));
            Keys(w.slots) == (if |recent| > capacity then recent[..capacity] else recent) &&
            Distinct(Keys(w.slots))
  {
    SlotsAreRecent(capacity, disk, requests, steps);
    TouchedIsServed(capacity, disk, requests, steps);
    RecentIsDistinct(After(capacity, disk, requests, steps).touched);
  }

  /** `x` occurs in a history after every occurrence of `y`. */
  ghost predicate Later(touched: seq<string>, x: string, y: string) {
    exists i :: 0 <= i < |touched| && touched[i] == x && forall j :: i <= j < |touched| ==> touched[j] != y
  }

  lemma LaterExtends(touched: seq<string>, k: string, x: string, y: string)
    requires Later(touched, x, y) && y != k
    ensures Later(touched + [k], x, y)
  {
    var i :| 0 <= i < |touched| && touched[i] == x && forall j :: i <= j < |touched| ==> touched[j] != y;
    assert (touched + [k])[i] == x;
  }

  lemma LaterLast(touched: seq<string>, k: string, y: string)
    requires y != k
    ensures Later(touched + [k], k, y)
  {
    assert (touched + [k])[|touched|] == k;
  }

  lemma {:induction false} ErasePositions(s: seq<string>, k: string, i: nat, j: nat) returns (a: nat, b: nat)
    requires i < j < |Erase(s, k)|
    ensures a < b < |s| && s[a] == Erase(s, k)[i] && s[b] == Erase(s, k)[j]
  {
    var rest := s[1..];
    if s[0] == k {
      a, b := ErasePositions(rest, k, i, j);
      a, b := a + 1, b + 1;
    } else if i > 0 {
      a, b := ErasePositions(rest, k, i - 1, j - 1);
      a, b := a + 1, b + 1;
    } else {
      EraseFacts(rest, k);
      assert Erase(s, k)[j] == Erase(rest, k)[j - 1] && Erase(rest, k)[j - 1] in rest;
      b :| b < |rest| && rest[b] == Erase(s, k)[j];
      a, b := 0, b + 1;
    }
  }

  ghost predicate ByLastTouch(touched: seq<string>, recent: seq<string>) {
    forall i, j :: 0 <= i < j < |recent| ==> Later(touched, recent[i], recent[j])
  }

  lemma TouchMovesFirst(touched: seq<string>, recent: seq<string>, k: string, i: nat, j: nat)
    requires ByLastTouch(touched, recent) && i < j < 1 + |Erase(recent, k)|
    ensures var r := [k] + Erase(recent, k); Later(touched + [k], r[i], r[j])
  {
    var rest := Erase(recent, k);
    EraseFacts(recent, k);
    var y := rest[j - 1];
    assert y in rest;
    assert ([k] + rest)[j] == y;
    if i == 0 {
      LaterLast(touched, k, y);
    } else {
      var a, b := ErasePositions(recent, k, i - 1, j - 1);
      assert Later(touched, recent[a], recent[b]);
      LaterExtends(touched, k, rest[i - 1], y);
    }
  }

  /** `Recent` lists exactly the hashes of a history, by their last occurrence, latest first. */
  lemma {:induction false} RecentByLastTouch(touched: seq<string>)
    ensures forall x :: x in Recent(touched) <==> x in touched
    ensures ByLastTouch(touched, Recent(touched))
    decreases |touched|
  {
    if touched != [] {
      var before, k := touched[..|touched| - 1], touched[|touched| - 1];
      assert touched == before + [k];
      RecentByLastTouch(before);
      EraseFacts(Recent(before), k);
      forall i, j | 0 <= i < j < |Recent(touched)|
        ensures Later(touched, Recent(touched)[i], Recent(touched)[j])
      {
        TouchMovesFirst(before, Recent(before), k, i, j);
      }
    }
  }

  // ---------------------------------------------------------------------
  // Progress
  // ---------------------------------------------------------------------

  function OwnStep(id: int, phase: Phase): Step {
    match phase
    case Waiting => GetStep(id)
    case Missed => OpenStep(id)
    case _ => PutStep(id)
  }

  function StepsLeft(phase: Phase): nat {
    match phase
    case Waiting => 3
    case Missed => 2
    case Opened(_) => 1
    case Answered(_) => 0
  }

  /** No request waits for another: each is answered after at most three steps of its own, which are
      always possible, whatever the others do in between. */
  lemma OwnStepAdvances(capacity: nat, disk: Disk, requests: map<int, Request>, w: Shared, s: Step, id: int)
    requires w.phases.Keys == requests.Keys && id in requests
    ensures var before, after := w.phases[id], Take(capacity, disk, requests, w, s).phases[id];
            StepsLeft(after) <= StepsLeft(before) &&
            (s == OwnStep(id, before) && !before.Answered? ==> StepsLeft(after) < StepsLeft(before)) &&
            (s.id != id || before.Answered? ==> after == before)
  {
  }
}
