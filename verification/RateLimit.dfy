/** The failed-login rate limiter (src/rate_limit.rs). Times are instants as integers. */
module RateLimit {
  import opened Wrappers

  type Octets = s: seq<int> | |s| == 16 witness seq(16, i => 0)

  datatype IpAddr = V4(bits: int) | V6(octets: Octets)

  /** The key an address is limited under: IPv6 by its /64. */
  function Bucket(ip: IpAddr): IpAddr {
    match ip
    case V4(_) => ip
    case V6(o) => V6(o[..8] + seq(8, i => 0))
  }

  /** Two addresses share a bucket exactly if they are equal or in one IPv6 /64. */
  lemma BucketIsPrefix(a: IpAddr, b: IpAddr)
    ensures Bucket(a) == Bucket(b) <==> a == b || (a.V6? && b.V6? && a.octets[..8] == b.octets[..8])
    ensures Bucket(Bucket(a)) == Bucket(a)
  {
    forall ip: IpAddr | ip.V6?
      ensures Bucket(ip).octets[..8] == ip.octets[..8]
    {
    }
  }

  datatype Verdict = Allow | Blocked(retryAfter: int)

  datatype IpState = IpState(windowStart: int, failures: int, blockedUntil: Option<int>, lastSeen: int)

  const U32_MAX: int := 0xFFFF_FFFF

  datatype Params = Params(maxAttempts: int, window: int, block: int) {
    predicate Valid() { 1 <= maxAttempts <= 0xFFFF_FFFF && 0 <= window && 0 <= block }
  }

  function Since(now: int, then_: int): int {
    if now >= then_ then now - then_ else 0
  }

  function SaturatingIncrement(n: int): int {
    if n >= U32_MAX then U32_MAX else n + 1
  }

  /** A block is in force at `now`. */
  predicate Active(st: Option<IpState>, now: int) {
    st.Some? && st.value.blockedUntil.Some? && st.value.blockedUntil.value > now
  }

  function VerdictOf(st: Option<IpState>, now: int): Verdict {
    if Active(st, now) then Blocked(st.value.blockedUntil.value - now) else Allow
  }

  /** The entry a failure leaves in its bucket. */
  function Fail(g: Params, st: Option<IpState>, now: int): IpState {
    var s := if st.Some? then st.value else IpState(now, 0, None, now);
    if Active(Some(s), now) then s.(lastSeen := now)
    else
      var s1 := if s.blockedUntil.Some? then s.(blockedUntil := None, windowStart := now, failures := 0) else s;
      var s2 := if Since(now, s1.windowStart) > g.window then s1.(windowStart := now, failures := 0) else s1;
      var s3 := s2.(failures := SaturatingIncrement(s2.failures), lastSeen := now);
      if s3.failures >= g.maxAttempts then s3.(blockedUntil := Some(now + g.block)) else s3
  }

  predicate Keeps(g: Params, st: IpState, now: int) {
    Active(Some(st), now) || Since(now, st.lastSeen) < g.window + g.block
  }

  type Table = map<IpAddr, IpState>

  function Lookup(m: Table, k: IpAddr): Option<IpState> {
    if k in m then Some(m[k]) else None
  }

  function Collect(g: Params, m: Table, now: int): Table {
    map k | k in m && Keeps(g, m[k], now) :: m[k]
  }

  class Limiter {
    const g: Params
    var entries: Table

    constructor (maxAttempts: int, window: int, block: int)
      requires 0 <= maxAttempts <= 0xFFFF_FFFF && 0 <= window && 0 <= block
      ensures g == Params(if maxAttempts > 1 then maxAttempts else 1, window, block) && g.Valid()
      ensures entries == map[]
    {
      g := Params(if maxAttempts > 1 then maxAttempts else 1, window, block);
      entries := map[];
    }

    /** Drops every entry that is neither blocking nor recently touched. */
    method CollectGarbage(now: int)
      modifies this
      ensures entries == Collect(g, old(entries), now)
    {
      var left := entries.Keys;
      while left != {}
        invariant left <= old(entries).Keys
        invariant forall k :: k in entries <==> k in old(entries) && (k in left || Keeps(g, old(entries)[k], now))
        invariant forall k :: k in entries ==> entries[k] == old(entries)[k]
      {
        var k :| k in left;
        left := left - {k};
        if !Keeps(g, entries[k], now) {
          entries := entries - {k};
        }
      }
    }

    method CheckAt(ip: IpAddr, now: int) returns (v: Verdict)
      modifies this
      ensures entries == Collect(g, old(entries), now)
      ensures v == VerdictOf(Lookup(entries, Bucket(ip)), now)
    {
      CollectGarbage(now);
      var k := Bucket(ip);
      if k in entries {
        var state := entries[k];
        if state.blockedUntil.Some? && state.blockedUntil.value > now {
          return Blocked(Since(state.blockedUntil.value, now));
        }
      }
      return Allow;
    }

    method RecordFailureAt(ip: IpAddr, now: int)
      modifies this
      ensures entries == old(entries)[Bucket(ip) := Fail(g, Lookup(old(entries), Bucket(ip)), now)]
    {
      var k := Bucket(ip);
      if k !in entries {
        entries := entries[k := IpState(now, 0, None, now)];
      }
      var state := entries[k];
      if state.blockedUntil.Some? {
        if state.blockedUntil.value > now {
          entries := entries[k := state.(lastSeen := now)];
          return;
        }
        state := state.(blockedUntil := None, windowStart := now, failures := 0);
      }
      if Since(now, state.windowStart) > g.window {
        state := state.(windowStart := now, failures := 0);
      }
      state := state.(failures := SaturatingIncrement(state.failures), lastSeen := now);
      if state.failures >= g.maxAttempts {
        state := state.(blockedUntil := Some(now + g.block));
      }
      entries := entries[k := state];
    }

    method RecordSuccess(ip: IpAddr)
      modifies this
      ensures entries == old(entries) - {Bucket(ip)}
    {
      entries := entries - {Bucket(ip)};
    }
  }

  // ---------------------------------------------------------------------
  // Runs
  // ---------------------------------------------------------------------

  datatype Event = Check(ip: IpAddr, now: int) | Failure(ip: IpAddr, now: int) | Success(ip: IpAddr, now: int)

  function Do(g: Params, m: Table, e: Event): Table {
    match e
    case Check(_, now) => Collect(g, m, now)
    case Failure(ip, now) => m[Bucket(ip) := Fail(g, Lookup(m, Bucket(ip)), now)]
    case Success(ip, _) => m - {Bucket(ip)}
  }

  /** The limiter's table after a run. */
  function After(g: Params, m: Table, es: seq<Event>): Table
    decreases |es|
  {
    if es == [] then m else Do(g, After(g, m, es[..|es| - 1]), es[|es| - 1])
  }

  /** The limiter that never collects and sees only one bucket. */
  function RefDo(g: Params, st: Option<IpState>, k: IpAddr, e: Event): Option<IpState> {
    if Bucket(e.ip) != k then st
    else
      match e
      case Check(_, _) => st
      case Failure(_, now) => Some(Fail(g, st, now))
      case Success(_, _) => None
  }

  function RefAfter(g: Params, k: IpAddr, es: seq<Event>): Option<IpState>
    decreases |es|
  {
    if es == [] then None else RefDo(g, RefAfter(g, k, es[..|es| - 1]), k, es[|es| - 1])
  }

  /** Times do not decrease along a run. */
  predicate Timely(es: seq<Event>) {
    forall i, j :: 0 <= i < j < |es| ==> es[i].now <= es[j].now
  }

  function Clock(es: seq<Event>, start: int): int {
    if es == [] then start else es[|es| - 1].now
  }

  // ---------------------------------------------------------------------
  // Counter bounds
  // ---------------------------------------------------------------------

  predicate Counted(g: Params, st: IpState) {
    0 <= st.failures <= g.maxAttempts && (st.blockedUntil.None? ==> st.failures < g.maxAttempts)
  }

  /** In every state of every run the count is at most `max_attempts`, and below it
      while no block is set; so the saturating increment never saturates. */
  lemma {:induction false} CountsBounded(g: Params, es: seq<Event>, k: IpAddr)
    requires g.Valid() && k in After(g, map[], es)
    ensures var st := After(g, map[], es)[k];
            Counted(g, st) &&
            (st.blockedUntil.None? ==> SaturatingIncrement(st.failures) == st.failures + 1)
    decreases |es|
  {
    if es != [] {
      var before, e := es[..|es| - 1], es[|es| - 1];
      var m := After(g, map[], before);
      if k in m {
        CountsBounded(g, before, k);
      }
      if e.Failure? && Bucket(e.ip) == k {
        FailCounted(g, Lookup(m, k), e.now);
      }
    }
  }

  lemma FailCounted(g: Params, st: Option<IpState>, now: int)
    requires g.Valid() && (st.Some? ==> Counted(g, st.value))
    ensures Counted(g, Fail(g, st, now))
  {
  }

  // ---------------------------------------------------------------------
  // Garbage collection cannot be observed
  // ---------------------------------------------------------------------

  /** An entry the next failure treats as if it were not there. */
  predicate Stale(g: Params, st: IpState, now: int) {
    if st.blockedUntil.Some? then st.blockedUntil.value <= now else now - st.windowStart > g.window
  }

  predicate Ordered(st: Option<IpState>, now: int) {
    st.Some? ==> st.value.windowStart <= st.value.lastSeen <= now
  }

  /** The collecting limiter's entry against the reference's. With a zero block
      duration the counts may differ, but neither ever blocks. */
  predicate Related(g: Params, real_: Option<IpState>, ref: Option<IpState>, now: int) {
    if g.block == 0 then !Active(real_, now) && !Active(ref, now)
    else Ordered(ref, now) && (real_ == ref || (real_.None? && Stale(g, ref.value, now)))
  }

  lemma RelatedLater(g: Params, r: Option<IpState>, s: Option<IpState>, now: int, later: int)
    requires Related(g, r, s, now) && now <= later
    ensures Related(g, r, s, later)
  {
  }

  lemma RelatedFailure(g: Params, r: Option<IpState>, s: Option<IpState>, now: int)
    requires g.Valid() && Related(g, r, s, now)
    ensures Related(g, Some(Fail(g, r, now)), Some(Fail(g, s, now)), now)
  {
  }

  lemma RelatedCollect(g: Params, m: Table, k: IpAddr, s: Option<IpState>, now: int)
    requires g.Valid() && Related(g, Lookup(m, k), s, now)
    ensures Related(g, Lookup(Collect(g, m, now), k), s, now)
  {
  }

  lemma {:induction false} AlwaysRelated(g: Params, es: seq<Event>, k: IpAddr)
    requires g.Valid() && Timely(es)
    ensures forall now :: Clock(es, now) <= now ==>
              Related(g, Lookup(After(g, map[], es), k), RefAfter(g, k, es), now)
    decreases |es|
  {
    if es != [] {
      var before, e := es[..|es| - 1], es[|es| - 1];
      AlwaysRelated(g, before, k);
      var m, s := After(g, map[], before), RefAfter(g, k, before);
      assert Clock(before, e.now) <= e.now;
      assert Related(g, Lookup(m, k), s, e.now);
      match e {
        case Check(_, now) => RelatedCollect(g, m, k, s, now);
        case Failure(_, now) => RelatedFailure(g, Lookup(m, k), s, now);
        case Success(_, _) =>
      }
      forall now | e.now <= now
        ensures Related(g, Lookup(After(g, map[], es), k), RefAfter(g, k, es), now)
      {
        RelatedLater(g, Lookup(After(g, map[], es), k), RefAfter(g, k, es), e.now, now);
      }
    }
  }

  /** Every verdict of every run over all addresses is the verdict of a limiter that
      never collects and folds only the events of the address's own bucket. */
  lemma CollectionUnobservable(g: Params, es: seq<Event>, i: nat)
    requires g.Valid() && Timely(es) && i < |es| && es[i].Check?
    ensures var k := Bucket(es[i].ip);
            VerdictOf(Lookup(After(g, map[], es[..i + 1]), k), es[i].now) ==
            VerdictOf(RefAfter(g, k, es[..i]), es[i].now)
  {
    var k := Bucket(es[i].ip);
    AlwaysRelated(g, es[..i + 1], k);
    assert es[..i + 1][..i] == es[..i];
    assert Clock(es[..i + 1], es[i].now) == es[i].now;
    assert RefAfter(g, k, es[..i + 1]) == RefAfter(g, k, es[..i]);
  }

  // ---------------------------------------------------------------------
  // Verdicts from the history alone
  // ---------------------------------------------------------------------

  /** The times of a bucket's failures since its last success. */
  function FailuresOf(k: IpAddr, es: seq<Event>): seq<int>
    decreases |es|
  {
    if es == [] then []
    else
      var ts, e := FailuresOf(k, es[..|es| - 1]), es[|es| - 1];
      if Bucket(e.ip) != k || e.Check? then ts
      else if e.Success? then []
      else ts + [e.now]
  }

  /** The failures counted together, and those made while the block they caused was in force. */
  datatype Burst = Burst(counted: seq<int>, ignored: seq<int>)

  function Last<T>(s: seq<T>): T
    requires s != []
  {
    s[|s| - 1]
  }

  predicate Full(g: Params, b: Burst) {
    b.counted != [] && |b.counted| == g.maxAttempts
  }

  /** At most `max_attempts` failures within one window of the first; the last of that many blocks,
      and only failures of the block's duration are ignored. */
  predicate BurstOk(g: Params, b: Burst) {
    && 1 <= |b.counted| <= g.maxAttempts
    && (forall t :: t in b.counted ==> t - b.counted[0] <= g.window)
    && (b.ignored != [] ==> Full(g, b))
    && (forall t :: t in b.ignored ==> t < Last(b.counted) + g.block)
  }

  /** The failure that opens `next` came when the block of `b` was over, or outside the window of `b`. */
  predicate Follows(g: Params, b: Burst, next: Burst)
    requires BurstOk(g, b) && BurstOk(g, next)
  {
    if Full(g, b) then next.counted[0] >= Last(b.counted) + g.block
    else next.counted[0] - b.counted[0] > g.window
  }

  function Times(bs: seq<Burst>): seq<int> {
    if bs == [] then [] else Times(bs[..|bs| - 1]) + (Last(bs).counted + Last(bs).ignored)
  }

  /** `bs` divides the failures `ts` into bursts. */
  predicate Divides(g: Params, bs: seq<Burst>, ts: seq<int>) {
    && Times(bs) == ts
    && (forall i :: 0 <= i < |bs| ==> BurstOk(g, bs[i]))
    && (forall i :: 0 < i < |bs| ==> Follows(g, bs[i - 1], bs[i]))
  }

  /** A full last burst blocks for the block's duration, counted from the failure that filled it. */
  predicate BlockedBy(g: Params, bs: seq<Burst>, now: int) {
    bs != [] && Full(g, Last(bs)) && now < Last(Last(bs).counted) + g.block
  }

  function Extend(g: Params, bs: seq<Burst>, t: int): seq<Burst> {
    if bs == [] then [Burst([t], [])]
    else
      var n := |bs| - 1;
      var b := bs[n];
      if Full(g, b) && t < Last(b.counted) + g.block then bs[..n] + [Burst(b.counted, b.ignored + [t])]
      else if !Full(g, b) && b.counted != [] && t - b.counted[0] <= g.window then
        bs[..n] + [Burst(b.counted + [t], b.ignored)]
      else bs + [Burst([t], [])]
  }

  lemma ReplaceLast(g: Params, bs: seq<Burst>, b: Burst, ts: seq<int>)
    requires bs != [] && Divides(g, bs, ts) && BurstOk(g, b) && b.counted[0] == Last(bs).counted[0]
    ensures var cs := bs[..|bs| - 1] + [b]; Divides(g, cs, Times(bs[..|bs| - 1]) + (b.counted + b.ignored))
  {
    var n := |bs| - 1;
    var cs := bs[..n] + [b];
    assert cs[..n] == bs[..n];
    forall i | 0 < i < |cs|
      ensures Follows(g, cs[i - 1], cs[i])
    {
      assert Follows(g, bs[i - 1], bs[i]);
    }
  }

  lemma OneMore(g: Params, bs: seq<Burst>, b: Burst, ts: seq<int>)
    requires Divides(g, bs, ts) && BurstOk(g, b) && (bs != [] ==> Follows(g, Last(bs), b))
    ensures Divides(g, bs + [b], ts + (b.counted + b.ignored))
  {
    assert (bs + [b])[..|bs|] == bs;
  }

  lemma ExtendLast(g: Params, bs: seq<Burst>, ts: seq<int>, b: Burst, t: int)
    requires Divides(g, bs, ts) && bs != [] && BurstOk(g, b) && b.counted[0] == Last(bs).counted[0]
    requires b.counted + b.ignored == Last(bs).counted + Last(bs).ignored + [t]
    ensures Divides(g, bs[..|bs| - 1] + [b], ts + [t])
  {
    ReplaceLast(g, bs, b, ts);
    assert Times(bs[..|bs| - 1]) + (b.counted + b.ignored) == ts + [t];
  }

  lemma ExtendDivides(g: Params, bs: seq<Burst>, ts: seq<int>, t: int)
    requires g.Valid() && Divides(g, bs, ts)
    ensures Divides(g, Extend(g, bs, t), ts + [t])
  {
    assert [t] + [] == [t];
    if bs == [] {
      OneMore(g, bs, Burst([t], []), ts);
    } else {
      var b := Last(bs);
      assert BurstOk(g, b);
      if Full(g, b) && t < Last(b.counted) + g.block {
        ExtendLast(g, bs, ts, Burst(b.counted, b.ignored + [t]), t);
      } else if !Full(g, b) && t - b.counted[0] <= g.window {
        ExtendLast(g, bs, ts, Burst(b.counted + [t], b.ignored), t);
      } else {
        OneMore(g, bs, Burst([t], []), ts);
      }
    }
  }

  function LastTime(b: Burst): int
    requires b.counted != []
  {
    if b.ignored != [] then Last(b.ignored) else Last(b.counted)
  }

  /** A burst without its last failure, if it has others. */
  function Shorter(b: Burst): Burst
    requires b.counted != []
  {
    if b.ignored != [] then Burst(b.counted, b.ignored[..|b.ignored| - 1])
    else Burst(b.counted[..|b.counted| - 1], [])
  }

  lemma ShorterBurst(g: Params, b: Burst)
    requires BurstOk(g, b) && (b.ignored != [] || |b.counted| > 1)
    ensures BurstOk(g, Shorter(b)) && Shorter(b).counted[0] == b.counted[0]
    ensures b.counted + b.ignored == (Shorter(b).counted + Shorter(b).ignored) + [LastTime(b)]
    ensures forall front: seq<Burst> :: Extend(g, front + [Shorter(b)], LastTime(b)) == front + [b]
  {
    var b' := Shorter(b);
    assert forall t :: t in b'.counted ==> t in b.counted;
    assert forall t :: t in b'.ignored ==> t in b.ignored;
    assert LastTime(b) in if b.ignored != [] then b.ignored else b.counted;
    if b.ignored != [] {
      assert b.ignored == b'.ignored + [LastTime(b)];
    } else {
      assert b.counted == b'.counted + [LastTime(b)];
    }
    forall front: seq<Burst>
      ensures Extend(g, front + [b'], LastTime(b)) == front + [b]
    {
      assert (front + [b'])[..|front|] == front;
    }
  }

  lemma DropLast<T>(a: seq<T>, x: T)
    ensures (a + [x])[..|a + [x]| - 1] == a && Last(a + [x]) == x
  {
  }

  /** The last failure can be taken back. */
  lemma Retract(g: Params, bs: seq<Burst>, ts: seq<int>) returns (cs: seq<Burst>)
    requires Divides(g, bs, ts) && bs != []
    ensures ts != [] && Divides(g, cs, ts[..|ts| - 1]) && Extend(g, cs, Last(ts)) == bs
  {
    var front, b := bs[..|bs| - 1], Last(bs);
    assert BurstOk(g, b) && bs == front + [b];
    if b.ignored != [] || |b.counted| > 1 {
      ShorterBurst(g, b);
      cs := front + [Shorter(b)];
      ReplaceLast(g, bs, Shorter(b), ts);
      var init := Times(front) + (Shorter(b).counted + Shorter(b).ignored);
      assert ts == init + [LastTime(b)];
      DropLast(init, LastTime(b));
    } else {
      cs := RetractOpening(g, bs, ts);
    }
  }

  lemma DividesFront(g: Params, bs: seq<Burst>, ts: seq<int>)
    requires Divides(g, bs, ts) && bs != []
    ensures Divides(g, bs[..|bs| - 1], Times(bs[..|bs| - 1]))
    ensures BurstOk(g, Last(bs)) && (|bs| > 1 ==> Follows(g, bs[|bs| - 2], Last(bs)))
  {
    var cs := bs[..|bs| - 1];
    forall i | 0 < i < |cs|
      ensures Follows(g, cs[i - 1], cs[i])
    {
      assert Follows(g, bs[i - 1], bs[i]);
    }
  }

  lemma RetractOpening(g: Params, bs: seq<Burst>, ts: seq<int>) returns (cs: seq<Burst>)
    requires Divides(g, bs, ts) && bs != [] && Last(bs).ignored == [] && |Last(bs).counted| <= 1
    ensures ts != [] && Divides(g, cs, ts[..|ts| - 1]) && Extend(g, cs, Last(ts)) == bs
  {
    var b := Last(bs);
    cs := bs[..|bs| - 1];
    DividesFront(g, bs, ts);
    assert b == Burst([b.counted[0]], []) && bs == cs + [b];
    assert ts == Times(cs) + [b.counted[0]];
    DropLast(Times(cs), b.counted[0]);
  }

  /** Failures divide into bursts in one way. */
  lemma {:induction false} DivisionUnique(g: Params, bs: seq<Burst>, cs: seq<Burst>, ts: seq<int>)
    requires Divides(g, bs, ts) && Divides(g, cs, ts)
    ensures bs == cs
    decreases |ts|
  {
    if bs != [] && cs != [] {
      var bs' := Retract(g, bs, ts);
      var cs' := Retract(g, cs, ts);
      DivisionUnique(g, bs', cs', ts[..|ts| - 1]);
    } else if bs != [] {
      var _ := Retract(g, bs, ts);
    } else if cs != [] {
      var _ := Retract(g, cs, ts);
    }
  }

  /** The never-collecting limiter's entry holds the last burst. */
  predicate Holds(g: Params, bs: seq<Burst>, st: Option<IpState>, now: int) {
    if bs == [] then st.None?
    else
      var b := Last(bs);
      && st.Some? && b.counted != []
      && st.value.windowStart == b.counted[0] <= now
      && st.value.failures == |b.counted|
      && st.value.blockedUntil == if Full(g, b) then Some(Last(b.counted) + g.block) else None
  }

  lemma FailHolds(g: Params, bs: seq<Burst>, st: Option<IpState>, now: int)
    requires g.Valid() && Holds(g, bs, st, now) && (bs != [] ==> BurstOk(g, Last(bs)))
    ensures Holds(g, Extend(g, bs, now), Some(Fail(g, st, now)), now)
  {
  }

  lemma {:induction false} RefHolds(g: Params, k: IpAddr, es: seq<Event>, now: int) returns (bs: seq<Burst>)
    requires g.Valid() && Timely(es) && Clock(es, now) <= now
    ensures Divides(g, bs, FailuresOf(k, es)) && Holds(g, bs, RefAfter(g, k, es), now)
    decreases |es|
  {
    if es == [] {
      bs := [];
    } else {
      var before, e := es[..|es| - 1], es[|es| - 1];
      bs := RefHolds(g, k, before, e.now);
      if Bucket(e.ip) == k && e.Failure? {
        FailHolds(g, bs, RefAfter(g, k, before), e.now);
        ExtendDivides(g, bs, FailuresOf(k, before), e.now);
        bs := Extend(g, bs, e.now);
      } else if Bucket(e.ip) == k && e.Success? {
        bs := [];
      }
    }
  }

  /** Every verdict of every run follows from the times of the bucket's failures since its last
      success: these divide into bursts in one way, a check during the block of the last burst is
      refused with what is left of the block, and every other check is let through. */
  lemma VerdictFromHistory(g: Params, es: seq<Event>, i: nat)
    requires g.Valid() && Timely(es) && i < |es| && es[i].Check?
    ensures var k, now := Bucket(es[i].ip), es[i].now;
            exists bs ::
              Divides(g, bs, FailuresOf(k, es[..i])) &&
              VerdictOf(Lookup(After(g, map[], es[..i + 1]), k), now) ==
                if BlockedBy(g, bs, now) then Blocked(Last(Last(bs).counted) + g.block - now) else Allow
  {
    CollectionUnobservable(g, es, i);
    var bs := RefHolds(g, Bucket(es[i].ip), es[..i], es[i].now);
  }

  /** The `i`-th event of a run is a failure of bucket `k`. */
  predicate FailureAt(es: seq<Event>, k: IpAddr, i: int) {
    0 <= i < |es| && es[i].Failure? && Bucket(es[i].ip) == k
  }

  lemma {:induction false} EntryComesFromFailures(g: Params, es: seq<Event>, k: IpAddr)
    requires k in After(g, map[], es)
    ensures var st := After(g, map[], es)[k];
            (exists i :: FailureAt(es, k, i) && es[i].now == st.lastSeen) &&
            (st.blockedUntil.Some? ==> exists i :: FailureAt(es, k, i) && st.blockedUntil.value == es[i].now + g.block)
    decreases |es|
  {
    var before, e := es[..|es| - 1], es[|es| - 1];
    var m, st := After(g, map[], before), After(g, map[], es)[k];
    if k in m {
      EntryComesFromFailures(g, before, k);
      var i :| FailureAt(before, k, i) && before[i].now == m[k].lastSeen;
      assert FailureAt(es, k, i) && es[i] == before[i];
      if m[k].blockedUntil.Some? {
        var j :| FailureAt(before, k, j) && m[k].blockedUntil.value == before[j].now + g.block;
        assert FailureAt(es, k, j) && es[j] == before[j];
      }
    }
    if e.Failure? && Bucket(e.ip) == k {
      assert FailureAt(es, k, |es| - 1);
    }
  }

  /** Every block in the table was set by a failure of its bucket and ends one block duration after it:
      until then a check is refused with the time that is left, from then on it is let through. */
  lemma BlockDuration(g: Params, es: seq<Event>, k: IpAddr)
    requires k in After(g, map[], es) && After(g, map[], es)[k].blockedUntil.Some?
    ensures exists i :: FailureAt(es, k, i) &&
              forall u :: VerdictOf(Lookup(After(g, map[], es), k), u) ==
                          if u < es[i].now + g.block then Blocked(es[i].now + g.block - u) else Allow
  {
    EntryComesFromFailures(g, es, k);
  }

  /** After a check the table holds only buckets that failed less than a window and a block ago. */
  lemma TableIsRecent(g: Params, es: seq<Event>, k: IpAddr)
    requires g.Valid() && Timely(es) && es != [] && es[|es| - 1].Check? && k in After(g, map[], es)
    ensures exists i :: FailureAt(es, k, i) && es[|es| - 1].now - es[i].now < g.window + g.block
  {
    EntryComesFromFailures(g, es, k);
  }

  // ---------------------------------------------------------------------
  // The failure rate
  // ---------------------------------------------------------------------

  function CountIn(ts: seq<int>, from: int, to: int): nat {
    if ts == [] then 0 else CountIn(ts[..|ts| - 1], from, to) + (if from <= ts[|ts| - 1] < to then 1 else 0)
  }

  lemma {:induction false} CountConcat(a: seq<int>, b: seq<int>, from: int, to: int)
    ensures CountIn(a + b, from, to) == CountIn(a, from, to) + CountIn(b, from, to)
  {
    if b == [] {
      assert a + b == a;
    } else {
      CountConcat(a, b[..|b| - 1], from, to);
      assert (a + b)[..|a + b| - 1] == a + b[..|b| - 1];
    }
  }

  lemma InitIsPart(a: seq<int>, b: seq<int>)
    requires a != [] && b == a[..|a| - 1]
    ensures a[|a| - 1] in a && forall x :: x in b ==> x in a
  {
  }

  lemma {:induction false} CountBounds(a: seq<int>, from: int, to: int, from': int, to': int)
    ensures CountIn(a, from, to) <= |a|
    ensures from' <= from && to <= to' ==> CountIn(a, from, to) <= CountIn(a, from', to')
    ensures (forall x :: x in a ==> x < from || to <= x) ==> CountIn(a, from, to) == 0
  {
    if a != [] {
      var b := a[..|a| - 1];
      InitIsPart(a, b);
      CountBounds(b, from, to, from', to');
    }
  }

  /** The failures of one bucket that no active block swallowed: those of its current
      window, and the older ones. */
  datatype Track = Track(st: Option<IpState>, older: seq<int>, current: seq<int>) {
    function All(): seq<int> { older + current }
  }

  function TrackFailure(g: Params, r: Track, now: int): Track {
    var st' := Some(Fail(g, r.st, now));
    if Active(r.st, now) then r.(st := st')
    else if r.st.Some? && r.st.value.blockedUntil.None? && Since(now, r.st.value.windowStart) <= g.window then
      Track(st', r.older, r.current + [now])
    else Track(st', r.older + r.current, [now])
  }

  predicate AllBy(ts: seq<int>, now: int) {
    forall x :: x in ts ==> x <= now
  }

  predicate TrackOk(g: Params, r: Track, now: int) {
    match r.st
    case None => r.older == [] && r.current == []
    case Some(st) =>
      && AllBy(r.older, st.windowStart) && AllBy(r.current, now) && st.windowStart <= now
      && |r.current| == st.failures && Counted(g, st) && 1 <= st.failures
      && CountIn(r.older, st.windowStart - g.window + 1, now + 1) <= g.maxAttempts - 1
      && (st.blockedUntil.Some? ==>
            st.windowStart <= st.blockedUntil.value - g.block && AllBy(r.current, st.blockedUntil.value - g.block))
  }

  /** Failures in the half-open interval of one window's length that starts at `from`. */
  function WindowCount(g: Params, ts: seq<int>, from: int): nat {
    CountIn(ts, from, from + g.window)
  }

  ghost predicate RateBounded(g: Params, ts: seq<int>) {
    forall from :: WindowCount(g, ts, from) <= 2 * g.maxAttempts - 1
  }

  lemma TrackLater(g: Params, r: Track, now: int, later: int)
    requires TrackOk(g, r, now) && now <= later
    ensures TrackOk(g, r, later)
  {
    if r.st.Some? {
      var lo := r.st.value.windowStart - g.window + 1;
      CountUpperIrrelevant(r.older, lo, now + 1, later + 1);
    }
  }

  lemma {:induction false} CountUpperIrrelevant(a: seq<int>, from: int, to: int, to': int)
    requires forall x :: x in a ==> x < to && x < to'
    ensures CountIn(a, from, to) == CountIn(a, from, to')
  {
    if a != [] {
      var b := a[..|a| - 1];
      InitIsPart(a, b);
      CountUpperIrrelevant(b, from, to, to');
    }
  }

  /** The window that opens now follows at most `max - 1` failures of the last `window`. */
  lemma OlderAtNewWindow(g: Params, r: Track, now: int)
    requires g.Valid() && g.window <= g.block && TrackOk(g, r, now) && !Active(r.st, now) && r.st.Some?
    requires !(r.st.value.blockedUntil.None? && Since(now, r.st.value.windowStart) <= g.window)
    ensures CountIn(r.older + r.current, now - g.window + 1, now + 1) <= g.maxAttempts - 1
  {
    var st, lo := r.st.value, now - g.window + 1;
    CountConcat(r.older, r.current, lo, now + 1);
    CountBounds(r.older, lo, now + 1, lo, now + 1);
    CountBounds(r.current, lo, now + 1, lo, now + 1);
  }

  /** Any interval of length `window` holding the new failure reaches back less than one window. */
  lemma NewFailureBounded(g: Params, older: seq<int>, current: seq<int>, windowStart: int, now: int, from: int)
    requires g.Valid() && windowStart <= now && |current| <= g.maxAttempts
    requires CountIn(older, windowStart - g.window + 1, now + 1) <= g.maxAttempts - 1
    requires AllBy(older, now) && AllBy(current, now) && from <= now < from + g.window
    ensures WindowCount(g, older + current, from) <= 2 * g.maxAttempts - 1
  {
    CountConcat(older, current, from, from + g.window);
    CountBounds(current, from, from + g.window, from, from + g.window);
    CountUpperIrrelevant(older, from, from + g.window, now + 1);
    CountBounds(older, from, now + 1, windowStart - g.window + 1, now + 1);
    if now - g.window + 1 > windowStart - g.window + 1 {
      CountBounds(older, from, now + 1, now - g.window + 1, now + 1);
      CountBounds(older, now - g.window + 1, now + 1, windowStart - g.window + 1, now + 1);
    }
  }

  lemma TrackStep(g: Params, r: Track, now: int)
    requires g.Valid() && g.window <= g.block && TrackOk(g, r, now)
    ensures TrackOk(g, TrackFailure(g, r, now), now)
    ensures TrackFailure(g, r, now).All() == if Active(r.st, now) then r.All() else r.All() + [now]
  {
    if !Active(r.st, now) {
      if r.st.Some? && !(r.st.value.blockedUntil.None? && Since(now, r.st.value.windowStart) <= g.window) {
        OlderAtNewWindow(g, r, now);
      }
      assert r.older + (r.current + [now]) == r.older + r.current + [now];
    }
  }

  lemma FailureOutside(g: Params, ts: seq<int>, now: int, from: int)
    requires RateBounded(g, ts) && !(from <= now < from + g.window)
    ensures WindowCount(g, ts + [now], from) <= 2 * g.maxAttempts - 1
  {
    assert WindowCount(g, ts, from) <= 2 * g.maxAttempts - 1;
    CountConcat(ts, [now], from, from + g.window);
    assert [now][..0] == [];
  }

  lemma TrackFailureOk(g: Params, r: Track, now: int)
    requires g.Valid() && g.window <= g.block && TrackOk(g, r, now) && RateBounded(g, r.All())
    ensures RateBounded(g, TrackFailure(g, r, now).All())
  {
    TrackStep(g, r, now);
    var r' := TrackFailure(g, r, now);
    if !Active(r.st, now) {
      forall from
        ensures WindowCount(g, r'.All(), from) <= 2 * g.maxAttempts - 1
      {
        if from <= now < from + g.window {
          NewFailureBounded(g, r'.older, r'.current, r'.st.value.windowStart, now, from);
        } else {
          FailureOutside(g, r.All(), now, from);
        }
      }
    }
  }

  /** Times of the failures of bucket `k` that the running limiter did not swallow. */
  function CountedTimes(g: Params, k: IpAddr, es: seq<Event>): seq<int>
    decreases |es|
  {
    if es == [] then []
    else
      var before, e := es[..|es| - 1], es[|es| - 1];
      CountedTimes(g, k, before) +
      (if e.Failure? && Bucket(e.ip) == k && !Active(Lookup(After(g, map[], before), k), e.now) then [e.now] else [])
  }

  function TrackAfter(g: Params, k: IpAddr, es: seq<Event>): Track
    decreases |es|
  {
    if es == [] then Track(None, [], [])
    else
      var r, e := TrackAfter(g, k, es[..|es| - 1]), es[|es| - 1];
      if e.Failure? && Bucket(e.ip) == k then TrackFailure(g, r, e.now) else r
  }

  predicate NoSuccess(es: seq<Event>, k: IpAddr) {
    forall e :: e in es && e.Success? ==> Bucket(e.ip) != k
  }

  lemma {:induction false} TracksRun(g: Params, k: IpAddr, es: seq<Event>, now: int)
    requires g.Valid() && 0 < g.window <= g.block && Timely(es) && NoSuccess(es, k) && Clock(es, now) <= now
    ensures var r := TrackAfter(g, k, es);
            r.st == RefAfter(g, k, es) && r.All() == CountedTimes(g, k, es) &&
            TrackOk(g, r, now) && RateBounded(g, r.All())
    decreases |es|
  {
    if es == [] {
    } else {
      var before, e := es[..|es| - 1], es[|es| - 1];
      assert e in es;
      TracksRun(g, k, before, e.now);
      AlwaysRelated(g, before, k);
      assert Related(g, Lookup(After(g, map[], before), k), RefAfter(g, k, before), e.now);
      var r := TrackAfter(g, k, before);
      if e.Failure? && Bucket(e.ip) == k {
        TrackStep(g, r, e.now);
        TrackFailureOk(g, r, e.now);
      }
      TrackLater(g, TrackAfter(g, k, es), e.now, now);
    }
  }

  /** With a block at least as long as the window and no success of a bucket, every
      half-open interval of one window's length holds at most `2 * max_attempts - 1`
      failures that the limiter did not swallow. */
  lemma FailureRateBounded(g: Params, k: IpAddr, es: seq<Event>, from: int)
    requires g.Valid() && g.window <= g.block && Timely(es) && NoSuccess(es, k)
    ensures WindowCount(g, CountedTimes(g, k, es), from) <= 2 * g.maxAttempts - 1
  {
    if g.window == 0 {
      CountBounds(CountedTimes(g, k, es), from, from, from, from);
    } else {
      TracksRun(g, k, es, Clock(es, 0));
    }
  }
}
