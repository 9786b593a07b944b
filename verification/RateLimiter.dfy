/** The per-tenant fixed-window rate limiter of backend/internal/api/ratelimit.go.
    Times are integer clock ticks; a call is one atomic step with one clock reading. */
module RateLimiter {

  /** One window: how many calls it has granted and when it lapses. */
  datatype Bucket = Bucket(count: int, resetAt: int)

  type Buckets = map<string, Bucket>

  datatype Call = Call(tenant: string, at: int)

  /** The settings a limiter is built with. */
  datatype Config = Config(limit: int, window: int) {
    predicate Valid() { limit >= 1 && window >= 1 }
  }

  /** The bucket that serves a call: the stored one unless it is missing or has lapsed. */
  function Current(cfg: Config, bs: Buckets, c: Call): Bucket {
    if c.tenant !in bs || c.at > bs[c.tenant].resetAt
    then Bucket(0, c.at + cfg.window)
    else bs[c.tenant]
  }

  predicate Granted(cfg: Config, bs: Buckets, c: Call) {
    Current(cfg, bs, c).count < cfg.limit
  }

  function Step(cfg: Config, bs: Buckets, c: Call): Buckets {
    var b := Current(cfg, bs, c);
    bs[c.tenant := if b.count < cfg.limit then b.(count := b.count + 1) else b]
  }

  class TenantLimiter {
    var buckets: Buckets
    const cfg: Config

    constructor (cfg: Config)
      ensures this.cfg == cfg && buckets == map[]
    {
      this.cfg := cfg;
      buckets := map[];
    }

    method AllowAt(tenant: string, now: int) returns (ok: bool)
      modifies this
      ensures ok == Granted(cfg, old(buckets), Call(tenant, now))
      ensures buckets == Step(cfg, old(buckets), Call(tenant, now))
    {
      var b: Bucket;
      if tenant !in buckets || now > buckets[tenant].resetAt {
        b := Bucket(0, now + cfg.window);
        buckets := buckets[tenant := b];
      } else {
        b := buckets[tenant];
      }
      if b.count >= cfg.limit {
        return false;
      }
      buckets := buckets[tenant := b.(count := b.count + 1)];
      return true;
    }
  }

  /** A limit that is not positive switches limiting off: there is no limiter object. */
  method NewTenantLimiter(limit: int) returns (l: TenantLimiter?)
    ensures l == null <==> limit <= 0
    ensures l != null ==> fresh(l) && l.cfg == Config(limit, 1_000_000_000) && l.buckets == map[]
  {
    if limit <= 0 {
      return null;
    }
    l := new TenantLimiter(Config(limit, 1_000_000_000));
  }

  method Allow(l: TenantLimiter?, tenant: string, now: int) returns (ok: bool)
    modifies if l == null then {} else {l}
    ensures l == null ==> ok
    ensures l != null ==> ok == Granted(l.cfg, old(l.buckets), Call(tenant, now))
                          && l.buckets == Step(l.cfg, old(l.buckets), Call(tenant, now))
  {
    if l == null {
      return true;
    }
    ok := l.AllowAt(tenant, now);
  }

  // ---- whole runs ----

  function Run(cfg: Config, bs: Buckets, calls: seq<Call>): Buckets
    decreases |calls|
  {
    if calls == [] then bs else Run(cfg, Step(cfg, bs, calls[0]), calls[1..])
  }

  predicate Monotone(calls: seq<Call>, clock: int) {
    calls == [] || (clock <= calls[0].at && Monotone(calls[1..], calls[0].at))
  }

  /** How many calls of `tenant` made within [lo, hi] a run from `bs` grants. */
  function GrantedWithin(cfg: Config, bs: Buckets, calls: seq<Call>, tenant: string, lo: int, hi: int): nat
    decreases |calls|
  {
    if calls == [] then 0
    else
      var c := calls[0];
      (if c.tenant == tenant && lo <= c.at <= hi && Granted(cfg, bs, c) then 1 else 0)
      + GrantedWithin(cfg, Step(cfg, bs, c), calls[1..], tenant, lo, hi)
  }

  /** What holds of every stored bucket when the last clock reading was `clock`. */
  ghost predicate Inv(cfg: Config, bs: Buckets, clock: int) {
    forall t | t in bs :: 1 <= bs[t].count <= cfg.limit && bs[t].resetAt <= clock + cfg.window
  }

  /** What the calls still to come can be granted within [lo, lo + window], given the bucket now stored. */
  ghost function Budget(cfg: Config, bs: Buckets, clock: int, tenant: string, lo: int): int {
    if clock > lo + cfg.window then 0
    else if tenant !in bs || bs[tenant].resetAt < lo then 2 * cfg.limit - 1
    else if bs[tenant].resetAt < lo + cfg.window then 2 * cfg.limit - bs[tenant].count
    else cfg.limit - bs[tenant].count
  }

  lemma {:induction false} WindowBoundFrom(cfg: Config, bs: Buckets, calls: seq<Call>, clock: int, tenant: string, lo: int)
    requires cfg.Valid() && Inv(cfg, bs, clock) && Monotone(calls, clock)
    ensures GrantedWithin(cfg, bs, calls, tenant, lo, lo + cfg.window) <= Budget(cfg, bs, clock, tenant, lo)
    decreases |calls|
  {
    if calls != [] {
      WindowBoundFrom(cfg, Step(cfg, bs, calls[0]), calls[1..], calls[0].at, tenant, lo);
    }
  }

  /** In any run with a monotone clock, any closed interval as long as the window contains at most
      2 * limit - 1 granted calls of a tenant: one fewer than two full buckets, because the call
      that opened the older of the two buckets lies before the interval. */
  lemma WindowBound(cfg: Config, calls: seq<Call>, clock: int, tenant: string, lo: int)
    requires cfg.Valid() && Monotone(calls, clock)
    ensures GrantedWithin(cfg, map[], calls, tenant, lo, lo + cfg.window) <= 2 * cfg.limit - 1
  {
    WindowBoundFrom(cfg, map[], calls, clock, tenant, lo);
  }

  function Repeat(c: Call, n: nat): seq<Call> {
    if n == 0 then [] else [c] + Repeat(c, n - 1)
  }

  lemma {:induction false} RepeatIsMonotone(c: Call, n: nat, rest: seq<Call>, clock: int)
    requires clock <= c.at && Monotone(rest, c.at)
    ensures Monotone(Repeat(c, n) + rest, clock)
  {
    if n > 0 {
      RepeatIsMonotone(c, n - 1, rest, c.at);
      assert (Repeat(c, n) + rest)[1..] == Repeat(c, n - 1) + rest;
      assert (Repeat(c, n) + rest)[0] == c;
    } else {
      assert Repeat(c, n) + rest == rest;
    }
  }

  lemma GrantedCons(cfg: Config, bs: Buckets, c: Call, calls: seq<Call>, tenant: string, lo: int, hi: int)
    ensures GrantedWithin(cfg, bs, [c] + calls, tenant, lo, hi)
            == (if c.tenant == tenant && lo <= c.at <= hi && Granted(cfg, bs, c) then 1 else 0)
               + GrantedWithin(cfg, Step(cfg, bs, c), calls, tenant, lo, hi)
  {
    assert ([c] + calls)[1..] == calls;
    hide Granted, Step;
  }

  /** A call that its bucket has room for is counted there. */
  lemma RoomGrants(cfg: Config, bs: Buckets, c: Call)
    requires Current(cfg, bs, c).count < cfg.limit && cfg.window >= 1
    ensures var b := Current(cfg, bs, c);
            && Granted(cfg, bs, c) && Step(cfg, bs, c) == bs[c.tenant := b.(count := b.count + 1)]
            && Current(cfg, Step(cfg, bs, c), c) == b.(count := b.count + 1)
  {
  }

  lemma NoRepeat(c: Call, rest: seq<Call>)
    ensures Repeat(c, 0) + rest == rest
  {
  }

  /** Which bucket serves a call: the stored one until it lapses, then a new one. */
  lemma Serves(cfg: Config, bs: Buckets, c: Call)
    ensures Current(cfg, bs, c) == if c.tenant in bs && c.at <= bs[c.tenant].resetAt then bs[c.tenant]
                                   else Bucket(0, c.at + cfg.window)
  {
  }

  /** Repeating a call inside its bucket is granted as long as the bucket has room. */
  lemma {:induction false} RepeatGranted(cfg: Config, bs: Buckets, c: Call, n: nat, rest: seq<Call>, lo: int, hi: int)
    requires lo <= c.at <= hi && n >= 1
    requires Current(cfg, bs, c).count + n <= cfg.limit && cfg.window >= 1
    ensures var b := Current(cfg, bs, c);
            GrantedWithin(cfg, bs, Repeat(c, n) + rest, c.tenant, lo, hi)
            == n + GrantedWithin(cfg, bs[c.tenant := b.(count := b.count + n)], rest, c.tenant, lo, hi)
    decreases n
  {
    hide GrantedWithin, Current, Step, Granted;
    var b := Current(cfg, bs, c);
    var next := Step(cfg, bs, c);
    RoomGrants(cfg, bs, c);
    GrantedCons(cfg, bs, c, Repeat(c, n - 1) + rest, c.tenant, lo, hi);
    assert Repeat(c, n) + rest == [c] + (Repeat(c, n - 1) + rest);
    hide Repeat;
    if n > 1 {
      RepeatGranted(cfg, next, c, n - 1, rest, lo, hi);
      assert next[c.tenant := b.(count := b.count + n)] == bs[c.tenant := b.(count := b.count + n)];
    } else {
      NoRepeat(c, rest);
    }
  }

  /** The bound is attained for every limit: one call opens a bucket, the rest of the bucket is
      used at its last tick, and a whole new bucket one tick later. */
  lemma WindowBoundIsTight(cfg: Config, tenant: string) returns (calls: seq<Call>)
    requires cfg.Valid()
    ensures Monotone(calls, 0)
    ensures GrantedWithin(cfg, map[], calls, tenant, 1, 1 + cfg.window) == 2 * cfg.limit - 1
  {
    var w := cfg.window;
    var late, next := Call(tenant, w), Call(tenant, w + 1);
    var tail := Repeat(next, cfg.limit) + [];
    RepeatIsMonotone(next, cfg.limit, [], w);
    var middle := Repeat(late, cfg.limit - 1) + tail;
    RepeatIsMonotone(late, cfg.limit - 1, tail, 0);
    calls := [Call(tenant, 0)] + middle;
    assert calls[1..] == middle;
    hide GrantedWithin, Repeat;
    OldAndNewBucket(cfg, tenant);
  }

  /** One call opens a bucket that lapses at `window`; the others fill it at its last tick, and a whole
      new one right after. */
  lemma OldAndNewBucket(cfg: Config, tenant: string)
    requires cfg.Valid()
    ensures var late, next := Call(tenant, cfg.window), Call(tenant, cfg.window + 1);
            var calls := [Call(tenant, 0)] + (Repeat(late, cfg.limit - 1) + (Repeat(next, cfg.limit) + []));
            GrantedWithin(cfg, map[], calls, tenant, 1, 1 + cfg.window) == 2 * cfg.limit - 1
  {
    hide GrantedWithin, Repeat, Step, Granted, Current;
    var w := cfg.window;
    var first, late, next := Call(tenant, 0), Call(tenant, w), Call(tenant, w + 1);
    var tail := Repeat(next, cfg.limit) + [];
    var start, full := map[tenant := Bucket(1, w)], map[tenant := Bucket(cfg.limit, w)];
    Serves(cfg, map[], first);
    RoomGrants(cfg, map[], first);
    assert Step(cfg, map[], first) == start;
    GrantedCons(cfg, map[], first, Repeat(late, cfg.limit - 1) + tail, tenant, 1, 1 + w);
    Serves(cfg, start, late);
    if cfg.limit > 1 {
      RepeatGranted(cfg, start, late, cfg.limit - 1, tail, 1, 1 + w);
      assert start[tenant := Bucket(cfg.limit, w)] == full;
    } else {
      NoRepeat(late, tail);
    }
    Serves(cfg, full, next);
    RepeatGranted(cfg, full, next, cfg.limit, [], 1, 1 + w);
    NoneGranted(cfg, full[tenant := Bucket(cfg.limit, w + 1 + w)], tenant, 1, 1 + w);
  }

  lemma NoneGranted(cfg: Config, bs: Buckets, tenant: string, lo: int, hi: int)
    ensures GrantedWithin(cfg, bs, [], tenant, lo, hi) == 0
  {
  }

  lemma {:induction false} RunKeepsInv(cfg: Config, bs: Buckets, calls: seq<Call>, clock: int) returns (last: int)
    requires cfg.Valid() && Inv(cfg, bs, clock) && Monotone(calls, clock)
    ensures clock <= last && Inv(cfg, Run(cfg, bs, calls), last)
    ensures forall c | c in calls :: c.at <= last
    decreases |calls|
  {
    last := clock;
    if calls != [] {
      last := RunKeepsInv(cfg, Step(cfg, bs, calls[0]), calls[1..], calls[0].at);
    }
  }

  lemma {:induction false} BucketGrantsFrom(cfg: Config, bs: Buckets, calls: seq<Call>, clock: int, tenant: string, hi: int)
    requires cfg.Valid() && Inv(cfg, bs, clock) && Monotone(calls, clock)
    requires forall c | c in calls :: c.at <= hi
    ensures var end := Run(cfg, bs, calls);
            && (tenant in bs ==> tenant in end
                                 && (end[tenant].resetAt == bs[tenant].resetAt
                                     || end[tenant].resetAt - cfg.window > bs[tenant].resetAt))
            && (tenant in end ==>
                  end[tenant].count
                  == GrantedWithin(cfg, bs, calls, tenant, end[tenant].resetAt - cfg.window, hi)
                     + Carried(bs, end, tenant))
    decreases |calls|
  {
    if calls != [] {
      var c, next := calls[0], Step(cfg, bs, calls[0]);
      assert c in calls && forall d | d in calls[1..] :: d in calls;
      BucketGrantsFrom(cfg, next, calls[1..], c.at, tenant, hi);
    }
  }

  /** What the bucket stored at the end had already granted before the run began. */
  ghost function Carried(bs: Buckets, end: Buckets, tenant: string): int
    requires tenant in end
  {
    if tenant in bs && bs[tenant].resetAt == end[tenant].resetAt then bs[tenant].count else 0
  }

  /** Each bucket grants at most `limit` calls: the count it stores is exactly the number of calls
      granted since it was opened. */
  lemma BucketGrantsAtMostLimit(cfg: Config, calls: seq<Call>, clock: int, tenant: string, hi: int)
    requires cfg.Valid() && Monotone(calls, clock) && tenant in Run(cfg, map[], calls)
    requires forall c | c in calls :: c.at <= hi
    ensures var b := Run(cfg, map[], calls)[tenant];
            b.count == GrantedWithin(cfg, map[], calls, tenant, b.resetAt - cfg.window, hi) <= cfg.limit
  {
    BucketGrantsFrom(cfg, map[], calls, clock, tenant, hi);
    var last := RunKeepsInv(cfg, map[], calls, clock);
  }

  function Only(calls: seq<Call>, tenant: string): seq<Call> {
    if calls == [] then []
    else (if calls[0].tenant == tenant then [calls[0]] else []) + Only(calls[1..], tenant)
  }

  /** The verdicts that the calls of one tenant receive, in order. */
  function VerdictsOf(cfg: Config, bs: Buckets, calls: seq<Call>, tenant: string): seq<bool>
    decreases |calls|
  {
    if calls == [] then []
    else (if calls[0].tenant == tenant then [Granted(cfg, bs, calls[0])] else [])
         + VerdictsOf(cfg, Step(cfg, bs, calls[0]), calls[1..], tenant)
  }

  ghost predicate SameFor(a: Buckets, b: Buckets, tenant: string) {
    (tenant in a <==> tenant in b) && (tenant in a ==> a[tenant] == b[tenant])
  }

  lemma {:induction false} NoInterferenceFrom(cfg: Config, a: Buckets, b: Buckets, calls: seq<Call>, tenant: string)
    requires SameFor(a, b, tenant)
    ensures VerdictsOf(cfg, a, calls, tenant) == VerdictsOf(cfg, b, Only(calls, tenant), tenant)
    decreases |calls|
  {
    if calls != [] {
      var c := calls[0];
      if c.tenant == tenant {
        assert Only(calls, tenant)[1..] == Only(calls[1..], tenant);
        NoInterferenceFrom(cfg, Step(cfg, a, c), Step(cfg, b, c), calls[1..], tenant);
      } else {
        assert Only(calls, tenant) == Only(calls[1..], tenant);
        NoInterferenceFrom(cfg, Step(cfg, a, c), b, calls[1..], tenant);
      }
    }
  }

  /** A tenant's verdicts are those it would get if it were the only tenant calling. */
  lemma NoInterference(cfg: Config, calls: seq<Call>, tenant: string)
    ensures VerdictsOf(cfg, map[], calls, tenant) == VerdictsOf(cfg, map[], Only(calls, tenant), tenant)
  {
    NoInterferenceFrom(cfg, map[], map[], calls, tenant);
  }
}
