/** Requests through the Basic-auth middleware, each a check, a verification and a
    record step against one shared limiter (src/auth.rs:58-112). */
module Auth {
  import opened Wrappers
  import opened RateLimit

  datatype Status = TooManyRequests(retryAfter: int) | Authorized | Unauthorized

  /** One request run without interleaving; `verified` is the outcome of the credential
      check, and a request without a client address bypasses the limiter. */
  method RequireBasic(limiter: Limiter, client: Option<IpAddr>, verified: bool, checkAt: int, recordAt: int)
    returns (status: Status)
    requires limiter.g.Valid()
    modifies limiter
    ensures client.None? ==>
              limiter.entries == old(limiter.entries) && status == if verified then Authorized else Unauthorized
    ensures client.Some? ==>
              var k := Bucket(client.value);
              var collected := Collect(limiter.g, old(limiter.entries), checkAt);
              match VerdictOf(Lookup(collected, k), checkAt)
              case Blocked(after) => status == TooManyRequests(after) && limiter.entries == collected
              case Allow =>
                if verified then status == Authorized && limiter.entries == collected - {k}
                else status == Unauthorized &&
                     limiter.entries == collected[k := Fail(limiter.g, Lookup(collected, k), recordAt)]
  {
    if client.Some? {
      var v := limiter.CheckAt(client.value, checkAt);
      if v.Blocked? {
        return TooManyRequests(v.retryAfter);
      }
    }
    if verified {
      if client.Some? {
        limiter.RecordSuccess(client.value);
      }
      return Authorized;
    }
    if client.Some? {
      limiter.RecordFailureAt(client.value, recordAt);
    }
    return Unauthorized;
  }

  // ---------------------------------------------------------------------
  // Interleaved requests, seen from one bucket
  // ---------------------------------------------------------------------

  /** A step of some request. A request of another bucket may succeed, one of the
      watched bucket may only be refused or fail. */
  datatype Step =
    | CheckStep(ip: IpAddr, now: int)
    | FailStep(ip: IpAddr, now: int)
    | SucceedStep(ip: IpAddr, now: int)

  /** The limiter's table, the requests of the watched bucket past their check, and the
      failures recorded since the bucket's current window opened. */
  datatype World = World(table: Table, inFlight: int, recorded: int)

  /** The failure recorded now opens a new window: no entry, an expired block, or a stale window. */
  predicate OpensWindow(g: Params, st: Option<IpState>, now: int) {
    !Active(st, now) &&
    (st.None? || st.value.blockedUntil.Some? || Since(now, st.value.windowStart) > g.window)
  }

  function Take(g: Params, k: IpAddr, w: World, s: Step): World {
    match s
    case CheckStep(ip, now) =>
      var table := Collect(g, w.table, now);
      var passes := Bucket(ip) == k && VerdictOf(Lookup(table, k), now).Allow?;
      World(table, if passes then w.inFlight + 1 else w.inFlight, w.recorded)
    case FailStep(ip, now) =>
      var b := Bucket(ip);
      var table := w.table[b := Fail(g, Lookup(w.table, b), now)];
      if b != k then w.(table := table)
      else World(table, w.inFlight - 1, if OpensWindow(g, Lookup(w.table, k), now) then 1 else w.recorded + 1)
    case SucceedStep(ip, _) => w.(table := w.table - {Bucket(ip)})
  }

  /** Only requests that passed their check record failures, at most `limit` of the
      bucket are past it at once, and none of them succeeds. */
  predicate Allowed(k: IpAddr, limit: int, w: World, w': World, s: Step) {
    match s
    case CheckStep(_, _) => w'.inFlight <= limit
    case FailStep(ip, _) => Bucket(ip) == k ==> w.inFlight > 0
    case SucceedStep(ip, _) => Bucket(ip) != k
  }

  predicate Run(g: Params, k: IpAddr, limit: int, w: World, steps: seq<Step>, clock: int)
    decreases |steps|
  {
    steps == [] ||
    (clock <= steps[0].now && Allowed(k, limit, w, Take(g, k, w, steps[0]), steps[0]) &&
     Run(g, k, limit, Take(g, k, w, steps[0]), steps[1..], steps[0].now))
  }

  function Final(g: Params, k: IpAddr, w: World, steps: seq<Step>): World
    decreases |steps|
  {
    if steps == [] then w else Final(g, k, Take(g, k, w, steps[0]), steps[1..])
  }

  function EventOf(s: Step): Event {
    match s
    case CheckStep(ip, now) => Check(ip, now)
    case FailStep(ip, now) => Failure(ip, now)
    case SucceedStep(ip, now) => Success(ip, now)
  }

  function EventsOf(steps: seq<Step>): seq<Event> {
    if steps == [] then [] else [EventOf(steps[0])] + EventsOf(steps[1..])
  }

  lemma {:induction false} AfterFirst(g: Params, m: Table, e: Event, es: seq<Event>)
    ensures After(g, m, [e] + es) == After(g, Do(g, m, e), es)
    decreases |es|
  {
    var all := [e] + es;
    if es == [] {
      assert all[..0] == [] && After(g, m, all[..0]) == m;
    } else {
      AfterFirst(g, m, e, es[..|es| - 1]);
      assert all[..|all| - 1] == [e] + es[..|es| - 1] && all[|all| - 1] == es[|es| - 1];
    }
  }

  /** Interleaved requests drive the limiter itself: the table is the one its run of checks,
      failures and successes leaves. */
  lemma {:induction false} TableIsLimiterRun(g: Params, k: IpAddr, w: World, steps: seq<Step>)
    ensures Final(g, k, w, steps).table == After(g, w.table, EventsOf(steps))
    decreases |steps|
  {
    if steps != [] {
      TableIsLimiterRun(g, k, Take(g, k, w, steps[0]), steps[1..]);
      AfterFirst(g, w.table, EventOf(steps[0]), EventsOf(steps[1..]));
    }
  }

  predicate Bounded(g: Params, k: IpAddr, limit: int, w: World, clock: int) {
    var st := Lookup(w.table, k);
    && 0 <= w.inFlight <= limit && 0 <= w.recorded <= g.maxAttempts + limit - 1
    && (st.Some? && st.value.blockedUntil.None? ==>
          w.recorded == st.value.failures && 0 <= st.value.failures < g.maxAttempts)
    && (Active(st, clock) ==> w.recorded + w.inFlight <= g.maxAttempts + limit - 1)
  }

  lemma BoundedStep(g: Params, k: IpAddr, limit: int, w: World, s: Step, clock: int)
    requires g.Valid() && 1 <= limit && Bounded(g, k, limit, w, clock) && clock <= s.now
    requires Allowed(k, limit, w, Take(g, k, w, s), s)
    ensures Bounded(g, k, limit, Take(g, k, w, s), s.now)
  {
  }

  /** With at most `limit` requests of a bucket in flight and none succeeding, at most
      `max_attempts + limit - 1` failures are recorded from the one that opens a window
      until the block it leads to expires, in every interleaving. */
  lemma {:induction false} RecordedFailuresBounded(g: Params, k: IpAddr, limit: int, w: World, steps: seq<Step>,
                                                   clock: int)
    requires g.Valid() && 1 <= limit && Bounded(g, k, limit, w, clock) && Run(g, k, limit, w, steps, clock)
    ensures Final(g, k, w, steps).recorded <= g.maxAttempts + limit - 1
    decreases |steps|
  {
    if steps != [] {
      BoundedStep(g, k, limit, w, steps[0], clock);
      RecordedFailuresBounded(g, k, limit, Take(g, k, w, steps[0]), steps[1..], steps[0].now);
    }
  }

  /** The bound holds from a limiter that has seen nothing. */
  lemma FreshWorldBounded(g: Params, k: IpAddr, limit: int, clock: int)
    requires g.Valid() && 1 <= limit
    ensures Bounded(g, k, limit, World(map[], 0, 0), clock)
  {
  }

  /** While a block is in force, no step of any request moves its end, and every check
      of the bucket is refused. */
  lemma {:induction false} BlockIsNeverExtended(g: Params, k: IpAddr, limit: int, w: World, steps: seq<Step>,
                                                clock: int, until: int)
    requires g.Valid() && Run(g, k, limit, w, steps, clock)
    requires k in w.table && w.table[k].blockedUntil == Some(until)
    requires forall s :: s in steps ==> s.now < until
    ensures k in Final(g, k, w, steps).table && Final(g, k, w, steps).table[k].blockedUntil == Some(until)
    ensures Final(g, k, w, steps).inFlight <= w.inFlight
    decreases |steps|
  {
    if steps != [] {
      assert steps[0] in steps;
      BlockIsNeverExtended(g, k, limit, Take(g, k, w, steps[0]), steps[1..], steps[0].now, until);
    }
  }

  /** The bound is met for every number of attempts and every `limit`: after `max_attempts - 1`
      failures made one at a time, `limit` requests pass their check together; the first of them
      to fail trips the limit, and the others record theirs inside the block. */
  lemma BoundIsTight(g: Params, k: IpAddr, limit: nat) returns (w: World, steps: seq<Step>)
    requires g.Valid() && 1 <= limit && Bucket(k) == k && 0 < g.block
    ensures w == World(map[], 0, 0) && Run(g, k, limit, w, steps, 0)
    ensures Final(g, k, w, steps).recorded == g.maxAttempts + limit - 1
  {
    w := World(map[], 0, 0);
    var lone, checks, fails := Singles(k, g.maxAttempts - 1), Checks(k, limit), Fails(k, limit);
    AllSingle(g, k, limit, 0, g.maxAttempts - 1, w);
    var w1 := Final(g, k, w, lone);
    AllCheck(g, k, limit, g.maxAttempts - 1, limit, w1);
    AllFail(g, k, limit, limit, Final(g, k, w1, checks));
    RunConcat(g, k, limit, w1, checks, fails);
    RunConcat(g, k, limit, w, lone, checks + fails);
    steps := lone + (checks + fails);
  }

  function Checks(k: IpAddr, n: nat): (r: seq<Step>)
    ensures forall s :: s in r ==> s.now == 0
  {
    if n == 0 then [] else [CheckStep(k, 0)] + Checks(k, n - 1)
  }

  function Fails(k: IpAddr, n: nat): (r: seq<Step>)
    ensures forall s :: s in r ==> s.now == 0
  {
    if n == 0 then [] else [FailStep(k, 0)] + Fails(k, n - 1)
  }

  /** Requests that fail one after the other. */
  function Singles(k: IpAddr, n: nat): (r: seq<Step>)
    ensures forall s :: s in r ==> s.now == 0
  {
    if n == 0 then [] else [CheckStep(k, 0)] + ([FailStep(k, 0)] + Singles(k, n - 1))
  }

  /** The bucket has counted `n` failures, all at time zero, and is not blocked. */
  predicate Counting(k: IpAddr, n: nat, w: World) {
    w.recorded == n && w.table == if n == 0 then map[] else map[k := IpState(0, n, None, 0)]
  }

  lemma CheckCounting(g: Params, k: IpAddr, n: nat, w: World)
    requires g.Valid() && Bucket(k) == k && 0 < g.block && Counting(k, n, w)
    ensures Take(g, k, w, CheckStep(k, 0)) == w.(inFlight := w.inFlight + 1)
  {
    assert Collect(g, w.table, 0) == w.table;
  }

  lemma {:induction false} AllSingle(g: Params, k: IpAddr, limit: int, n: nat, m: nat, w: World)
    requires g.Valid() && Bucket(k) == k && 0 < g.block && 1 <= limit
    requires Counting(k, n, w) && w.inFlight == 0 && n + m < g.maxAttempts
    ensures Run(g, k, limit, w, Singles(k, m), 0)
    ensures Counting(k, n + m, Final(g, k, w, Singles(k, m))) && Final(g, k, w, Singles(k, m)).inFlight == 0
    decreases m
  {
    if m > 0 {
      var rest := [FailStep(k, 0)] + Singles(k, m - 1);
      CheckCounting(g, k, n, w);
      var w1 := Take(g, k, w, CheckStep(k, 0));
      var w2 := Take(g, k, w1, FailStep(k, 0));
      assert Counting(k, n + 1, w2) && w2.inFlight == 0;
      AllSingle(g, k, limit, n + 1, m - 1, w2);
      assert rest[1..] == Singles(k, m - 1) && Singles(k, m)[1..] == rest;
    }
  }

  lemma {:induction false} AllCheck(g: Params, k: IpAddr, limit: int, n: nat, m: nat, w: World)
    requires g.Valid() && Bucket(k) == k && 0 < g.block && Counting(k, n, w)
    requires 0 <= w.inFlight && w.inFlight + m <= limit
    ensures Run(g, k, limit, w, Checks(k, m), 0)
    ensures Final(g, k, w, Checks(k, m)) == w.(inFlight := w.inFlight + m)
    decreases m
  {
    if m > 0 {
      CheckCounting(g, k, n, w);
      AllCheck(g, k, limit, n, m - 1, Take(g, k, w, CheckStep(k, 0)));
      assert Checks(k, m)[1..] == Checks(k, m - 1);
    }
  }

  lemma {:induction false} AllFail(g: Params, k: IpAddr, limit: int, n: nat, w: World)
    requires g.Valid() && Bucket(k) == k && 0 < g.block && w.inFlight == n
    requires Counting(k, g.maxAttempts - 1, w) || Active(Lookup(w.table, k), 0)
    ensures Run(g, k, limit, w, Fails(k, n), 0)
    ensures Final(g, k, w, Fails(k, n)).recorded == w.recorded + n
    decreases n
  {
    if n > 0 {
      AllFail(g, k, limit, n - 1, Take(g, k, w, FailStep(k, 0)));
      assert Fails(k, n)[1..] == Fails(k, n - 1);
    }
  }

  lemma {:induction false} RunConcat(g: Params, k: IpAddr, limit: int, w: World, a: seq<Step>, b: seq<Step>)
    requires Run(g, k, limit, w, a, 0) && Run(g, k, limit, Final(g, k, w, a), b, 0)
    requires forall s :: s in a + b ==> s.now == 0
    ensures Run(g, k, limit, w, a + b, 0) && Final(g, k, w, a + b) == Final(g, k, Final(g, k, w, a), b)
    decreases |a|
  {
    if a == [] {
      assert a + b == b;
    } else {
      assert a[0] in a + b && (a + b)[1..] == a[1..] + b && (a + b)[0] == a[0];
      forall s | s in a[1..] + b
        ensures s.now == 0
      {
        assert s in a + b;
      }
      RunConcat(g, k, limit, Take(g, k, w, a[0]), a[1..], b);
    }
  }
}
