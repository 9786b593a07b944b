/** One-time codes and the used-counter table of backend/internal/auth/mfa.go.
    Times are integer clock ticks (nanoseconds since the epoch); a verification is one atomic step
    with one clock reading. The HMAC and the digest that keys the table are parameters. */
module Totp {
  import opened Base

  /** `step`, `skew`, `ttl` and `digits` are the service's fields; `hotp` is the code of a
      (secret, counter) pair and `key` the table key of one. Nothing is assumed of either. */
  datatype Config = Config(
    step: int, skew: int, ttl: int, digits: int,
    hotp: (string, int) -> string,
    key: (string, int) -> string
  ) {
    predicate Valid() { step >= 1 && skew >= 0 }
  }

  type Used = map<string, int>

  function Counter(cfg: Config, at: nat): nat
    requires cfg.Valid()
  {
    at / cfg.step
  }

  /** The first counter in [lo, hi] whose code is `code`. */
  function Match(cfg: Config, secret: string, code: string, lo: int, hi: int): (m: Option<int>)
    ensures m.Some? ==> lo <= m.value <= hi && cfg.hotp(secret, m.value) == code
    ensures m.Some? ==> (forall c | lo <= c < m.value :: cfg.hotp(secret, c) != code)
    ensures m.None? ==> (forall c | lo <= c <= hi :: cfg.hotp(secret, c) != code)
    decreases hi - lo + 1
  {
    if lo > hi then None
    else if cfg.hotp(secret, lo) == code then Some(lo)
    else Match(cfg, secret, code, lo + 1, hi)
  }

  /** Whether a counter may be claimed: it is not in the table, or its entry has lapsed. */
  predicate Claimable(cfg: Config, used: Used, secret: string, counter: int, now: int) {
    var k := cfg.key(secret, counter);
    k !in used || now > used[k]
  }

  function Claim(cfg: Config, used: Used, secret: string, counter: int, now: int): Used {
    if Claimable(cfg, used, secret, counter, now)
    then used[cfg.key(secret, counter) := now + cfg.ttl]
    else used
  }

  /** The counter a code stands for at `now`: the first one of the skew window with that code. */
  function Candidate(cfg: Config, secret: string, code: string, now: nat): Option<int>
    requires cfg.Valid()
  {
    var c := Counter(cfg, now);
    if |TrimSpace(code)| != cfg.digits then None
    else Match(cfg, secret, TrimSpace(code), c - cfg.skew, c + cfg.skew)
  }

  predicate Verifies(cfg: Config, used: Used, secret: string, code: string, now: nat)
    requires cfg.Valid()
  {
    var m := Candidate(cfg, secret, code, now);
    m.Some? && Claimable(cfg, used, secret, m.value, now)
  }

  function AfterVerify(cfg: Config, used: Used, secret: string, code: string, now: nat): Used
    requires cfg.Valid()
  {
    var m := Candidate(cfg, secret, code, now);
    if m.Some? then Claim(cfg, used, secret, m.value, now) else used
  }

  /** The table without the entries that have lapsed at the clock reading `now`. */
  function Sweep(used: Used, now: int): Used {
    map k | k in used && now <= used[k] :: used[k]
  }

  class MfaService {
    var used: Used
    const cfg: Config

    constructor (hotp: (string, int) -> string, key: (string, int) -> string)
      ensures used == map[]
      ensures cfg == Config(30_000_000_000, 1, 90_000_000_000, 6, hotp, key)
    {
      var step := 30_000_000_000;
      cfg := Config(step, 1, step * 3, 6, hotp, key);
      used := map[];
    }

    method ClaimCounter(secret: string, counter: int, now: int) returns (ok: bool)
      modifies this
      ensures ok == Claimable(cfg, old(used), secret, counter, now)
      ensures used == Claim(cfg, old(used), secret, counter, now)
    {
      var k := cfg.key(secret, counter);
      if k in used && now <= used[k] {
        return false;
      }
      used := used[k := now + cfg.ttl];
      return true;
    }

    method VerifyTotp(secret: string, code: string, now: nat) returns (ok: bool)
      requires cfg.Valid()
      modifies this
      ensures ok == Verifies(cfg, old(used), secret, code, now)
      ensures used == AfterVerify(cfg, old(used), secret, code, now)
    {
      var trimmed := TrimSpace(code);
      if |trimmed| != cfg.digits {
        return false;
      }
      var c := Counter(cfg, now);
      var d := -cfg.skew;
      while d <= cfg.skew
        invariant -cfg.skew <= d <= cfg.skew + 1
        invariant used == old(used)
        invariant Candidate(cfg, secret, code, now) == Match(cfg, secret, trimmed, c + d, c + cfg.skew)
      {
        if cfg.hotp(secret, c + d) == trimmed {
          ok := ClaimCounter(secret, c + d, now);
          return;
        }
        d := d + 1;
      }
      return false;
    }

    /** `now` is read before the lock is taken, so it may lie behind the clock. */
    method SweepExpired(now: int)
      modifies this
      ensures used == Sweep(old(used), now)
    {
      var todo := used.Keys;
      while todo != {}
        invariant todo <= old(used).Keys
        invariant used == map k | k in old(used) && (k in todo || now <= old(used)[k]) :: old(used)[k]
        decreases todo
      {
        var k :| k in todo;
        if now > used[k] {
          used := used - {k};
        }
        todo := todo - {k};
      }
    }
  }

  // ---- whole runs ----

  datatype Event =
    | Verify(secret: string, code: string, at: nat)
    | SweepAt(seen: int, at: nat)  // `seen` is the clock reading the sweep works with

  /** Readings never decrease, and a sweep works with a reading no later than the moment it runs. */
  predicate Timed(events: seq<Event>, clock: nat) {
    events == [] || (clock <= events[0].at && (events[0].SweepAt? ==> events[0].seen <= events[0].at)
                     && Timed(events[1..], events[0].at))
  }

  function Step(cfg: Config, used: Used, e: Event): Used
    requires cfg.Valid()
  {
    match e
    case Verify(secret, code, at) => AfterVerify(cfg, used, secret, code, at)
    case SweepAt(seen, _) => Sweep(used, seen)
  }

  /** The (secret, counter) pairs that a run accepts, in order. */
  function Accepted(cfg: Config, used: Used, events: seq<Event>): seq<(string, int)>
    requires cfg.Valid()
    decreases |events|
  {
    if events == [] then []
    else
      var e := events[0];
      (if e.Verify? && Verifies(cfg, used, e.secret, e.code, e.at)
       then [(e.secret, Candidate(cfg, e.secret, e.code, e.at).value)] else [])
      + Accepted(cfg, Step(cfg, used, e), events[1..])
  }

  /** A pair that can no longer be accepted at `clock` or later: its entry outlives its window. */
  ghost predicate Spent(cfg: Config, used: Used, p: (string, int), clock: nat)
    requires cfg.Valid()
  {
    var k := cfg.key(p.0, p.1);
    var last := (p.1 + cfg.skew + 1) * cfg.step - 1;
    clock <= last ==> k in used && last <= used[k]
  }

  lemma CounterWindow(cfg: Config, at: nat, counter: int)
    requires cfg.Valid()
    ensures Counter(cfg, at) - cfg.skew <= counter <= Counter(cfg, at) + cfg.skew
            <==> (counter - cfg.skew) * cfg.step <= at < (counter + cfg.skew + 1) * cfg.step
  {
    FloorLe(counter - cfg.skew, at, cfg.step);
    FloorLe(counter + cfg.skew + 1, at, cfg.step);
  }

  /** A spent pair stays spent, and an accepted pair is spent from then on. */
  lemma StepSpends(cfg: Config, used: Used, e: Event, p: (string, int), clock: nat)
    requires cfg.Valid() && cfg.ttl >= (2 * cfg.skew + 1) * cfg.step - 1
    requires Timed([e], clock)
    requires Spent(cfg, used, p, clock)
             || (e.Verify? && Verifies(cfg, used, e.secret, e.code, e.at)
                 && p == (e.secret, Candidate(cfg, e.secret, e.code, e.at).value))
    ensures Spent(cfg, Step(cfg, used, e), p, e.at)
    ensures Spent(cfg, used, p, clock) && e.Verify? && Verifies(cfg, used, e.secret, e.code, e.at)
            ==> p != (e.secret, Candidate(cfg, e.secret, e.code, e.at).value)
  {
    if e.Verify? {
      var m := Candidate(cfg, e.secret, e.code, e.at);
      if m.Some? {
        CounterWindow(cfg, e.at, m.value);
        assert (m.value + cfg.skew + 1) * cfg.step
            == (m.value - cfg.skew) * cfg.step + (2 * cfg.skew + 1) * cfg.step;
      }
    }
  }

  lemma {:induction false} SpentNeverAccepted(cfg: Config, used: Used, events: seq<Event>, clock: nat, p: (string, int))
    requires cfg.Valid() && cfg.ttl >= (2 * cfg.skew + 1) * cfg.step - 1
    requires Timed(events, clock) && Spent(cfg, used, p, clock)
    ensures p !in Accepted(cfg, used, events)
    decreases |events|
  {
    if events != [] {
      StepSpends(cfg, used, events[0], p, clock);
      SpentNeverAccepted(cfg, Step(cfg, used, events[0]), events[1..], events[0].at, p);
    }
  }

  ghost predicate Distinct<T>(s: seq<T>) {
    forall i, j | 0 <= i < j < |s| :: s[i] != s[j]
  }

  /** In any run of verifications and sweeps, from any table, no (secret, counter) pair is accepted
      twice, provided an entry lives for the whole span in which its counter is acceptable. */
  lemma {:induction false} SingleUse(cfg: Config, used: Used, events: seq<Event>, clock: nat)
    requires cfg.Valid() && cfg.ttl >= (2 * cfg.skew + 1) * cfg.step - 1
    requires Timed(events, clock)
    ensures Distinct(Accepted(cfg, used, events))
    decreases |events|
  {
    if events != [] {
      var e := events[0];
      var next := Step(cfg, used, e);
      SingleUse(cfg, next, events[1..], e.at);
      if e.Verify? && Verifies(cfg, used, e.secret, e.code, e.at) {
        var p := (e.secret, Candidate(cfg, e.secret, e.code, e.at).value);
        StepSpends(cfg, used, e, p, clock);
        SpentNeverAccepted(cfg, next, events[1..], e.at, p);
        var rest := Accepted(cfg, next, events[1..]);
        assert Accepted(cfg, used, events) == [p] + rest;
        assert forall j | 1 <= j < |rest| + 1 :: ([p] + rest)[j] in rest;
      }
    }
  }

  /** The settings the service is built with meet that condition. */
  lemma ServiceSingleUse(m: MfaService, hotp: (string, int) -> string, key: (string, int) -> string,
                         used: Used, events: seq<Event>, clock: nat)
    requires m.cfg == Config(30_000_000_000, 1, 90_000_000_000, 6, hotp, key)
    requires Timed(events, clock)
    ensures Distinct(Accepted(m.cfg, used, events))
  {
    SingleUse(m.cfg, used, events, clock);
  }

  /** The condition is necessary: with a shorter life there are codes and a run that replays one. */
  lemma ShortLifeReplays(step: int, skew: int, ttl: nat) returns (cfg: Config, events: seq<Event>)
    requires step >= 1 && skew >= 0 && ttl < (2 * skew + 1) * step - 1
    ensures cfg.step == step && cfg.skew == skew && cfg.ttl == ttl
    ensures Timed(events, 0) && !Distinct(Accepted(cfg, map[], events))
  {
    cfg := Config(step, skew, ttl, 1, (s, c) => if c == skew then "1" else "0", (s, c) => "k");
    var first, again := Verify("s", "1", 0), Verify("s", "1", ttl + 1);
    events := [first, again];
    CounterWindow(cfg, 0, skew);
    CounterWindow(cfg, ttl + 1, skew);
    assert 0 * step == 0;
    TrimSpaceTrims("1");
    var m0, m1 := Candidate(cfg, "s", "1", 0), Candidate(cfg, "s", "1", ttl + 1);
    assert cfg.hotp("s", skew) == "1";
    assert m0 == Some(skew) && m1 == Some(skew);
    var used := Step(cfg, map[], first);
    assert events[1..] == [again] && [again][1..] == [];
    assert Accepted(cfg, used, [again]) == [("s", skew)] + Accepted(cfg, Step(cfg, used, again), []);
    var all := Accepted(cfg, map[], events);
    assert all == [("s", skew)] + Accepted(cfg, used, [again]);
    assert all[0] == all[1];
  }

  // ---- which codes are accepted, from the history ----

  /** Readings never decrease up to `now`, and a sweep works with a reading no later than it runs. */
  ghost predicate InOrder(events: seq<Event>, now: nat) {
    && (forall i, j | 0 <= i < j < |events| :: events[i].at <= events[j].at)
    && (forall e | e in events :: e.at <= now && (e.SweepAt? ==> e.seen <= e.at))
  }

  /** The table after a run from an empty one. */
  function TableAfter(cfg: Config, events: seq<Event>): Used
    requires cfg.Valid()
  {
    if events == [] then map[] else Step(cfg, TableAfter(cfg, events[..|events| - 1]), events[|events| - 1])
  }

  /** The codes accepted in a run: under which key, and when. */
  function Grants(cfg: Config, events: seq<Event>): set<(string, nat)>
    requires cfg.Valid()
  {
    if events == [] then {}
    else
      var init := events[..|events| - 1];
      Grants(cfg, init) + Granted(cfg, TableAfter(cfg, init), events[|events| - 1])
  }

  function Granted(cfg: Config, used: Used, e: Event): set<(string, nat)>
    requires cfg.Valid()
  {
    if e.Verify? && Verifies(cfg, used, e.secret, e.code, e.at)
    then {(cfg.key(e.secret, Candidate(cfg, e.secret, e.code, e.at).value), e.at)} else {}
  }

  /** The table remembers the grants whose life is not over at `now`. */
  ghost predicate Remembers(cfg: Config, used: Used, grants: set<(string, nat)>, now: int) {
    && (forall k | k in used :: exists g :: g in grants && g.0 == k && used[k] == g.1 + cfg.ttl)
    && (forall g | g in grants && now <= g.1 + cfg.ttl :: g.0 in used && used[g.0] >= g.1 + cfg.ttl)
  }

  lemma RemembersClaim(cfg: Config, used: Used, grants: set<(string, nat)>, k: string, at: nat, now: int)
    requires at <= now && Remembers(cfg, used, grants, at) && (forall g | g in grants :: g.1 <= at)
    ensures Remembers(cfg, used[k := at + cfg.ttl], grants + {(k, at)}, now)
  {
    var next, more := used[k := at + cfg.ttl], grants + {(k, at)};
    forall j | j in next ensures exists g :: g in more && g.0 == j && next[j] == g.1 + cfg.ttl {
      if j == k {
        assert (k, at) in more;
      } else {
        var g :| g in grants && g.0 == j && used[j] == g.1 + cfg.ttl;
        assert g in more;
      }
    }
  }

  lemma RemembersSweep(cfg: Config, used: Used, grants: set<(string, nat)>, seen: int, at: int, now: int)
    requires seen <= at <= now && Remembers(cfg, used, grants, at)
    ensures Remembers(cfg, Sweep(used, seen), grants, now)
  {
  }

  lemma InOrderInit(events: seq<Event>, now: nat)
    requires events != [] && InOrder(events, now)
    ensures var e := events[|events| - 1];
            InOrder(events[..|events| - 1], e.at) && e.at <= now && (e.SweepAt? ==> e.seen <= e.at)
  {
    var init, e := events[..|events| - 1], events[|events| - 1];
    forall d | d in init ensures d.at <= e.at {
      var i :| 0 <= i < |init| && init[i] == d;
      assert events[i] == d;
    }
  }

  lemma RemembersVerify(cfg: Config, used: Used, grants: set<(string, nat)>, e: Event, now: nat)
    requires cfg.Valid() && e.Verify? && e.at <= now
    requires Remembers(cfg, used, grants, e.at) && forall g | g in grants :: g.1 <= e.at
    ensures Remembers(cfg, Step(cfg, used, e), grants + Granted(cfg, used, e), now)
  {
    VerifyMoves(cfg, used, e);
    hide Candidate, Claimable, Step, Granted, Remembers;
    var m := Candidate(cfg, e.secret, e.code, e.at);
    if m.Some? && Claimable(cfg, used, e.secret, m.value, e.at) {
      RemembersClaim(cfg, used, grants, cfg.key(e.secret, m.value), e.at, now);
    } else {
      assert grants + {} == grants;
      RemembersLater(cfg, used, grants, e.at, now);
    }
  }

  lemma VerifyMoves(cfg: Config, used: Used, e: Event)
    requires cfg.Valid() && e.Verify?
    ensures var m := Candidate(cfg, e.secret, e.code, e.at);
            if m.Some? && Claimable(cfg, used, e.secret, m.value, e.at) then
              var k := cfg.key(e.secret, m.value);
              Step(cfg, used, e) == used[k := e.at + cfg.ttl] && Granted(cfg, used, e) == {(k, e.at)}
            else Step(cfg, used, e) == used && Granted(cfg, used, e) == {}
  {
    hide Candidate, Claimable;
  }

  lemma GrantedAt(cfg: Config, used: Used, e: Event)
    requires cfg.Valid()
    ensures forall g | g in Granted(cfg, used, e) :: g.1 == e.at
    ensures e.SweepAt? ==> Granted(cfg, used, e) == {}
  {
    hide Verifies, Candidate;
  }

  lemma RemembersStep(cfg: Config, used: Used, grants: set<(string, nat)>, e: Event, now: nat)
    requires cfg.Valid() && e.at <= now && (e.SweepAt? ==> e.seen <= e.at)
    requires Remembers(cfg, used, grants, e.at) && forall g | g in grants :: g.1 <= e.at
    ensures Remembers(cfg, Step(cfg, used, e), grants + Granted(cfg, used, e), now)
    ensures forall g | g in grants + Granted(cfg, used, e) :: g.1 <= now
  {
    GrantedAt(cfg, used, e);
    hide AfterVerify, Granted, Sweep, Remembers;
    if e.SweepAt? {
      assert grants + {} == grants;
      RemembersSweep(cfg, used, grants, e.seen, e.at, now);
    } else {
      RemembersVerify(cfg, used, grants, e, now);
    }
  }

  lemma RemembersLater(cfg: Config, used: Used, grants: set<(string, nat)>, at: int, now: int)
    requires at <= now && Remembers(cfg, used, grants, at)
    ensures Remembers(cfg, used, grants, now)
  {
  }

  lemma {:induction false} TableRemembers(cfg: Config, events: seq<Event>, now: nat)
    requires cfg.Valid() && InOrder(events, now)
    ensures Remembers(cfg, TableAfter(cfg, events), Grants(cfg, events), now)
    ensures forall g | g in Grants(cfg, events) :: g.1 <= now
    decreases |events|
  {
    if events != [] {
      var init, e := events[..|events| - 1], events[|events| - 1];
      InOrderInit(events, now);
      hide InOrder, Remembers, Step, Granted;
      TableRemembers(cfg, init, e.at);
      RemembersStep(cfg, TableAfter(cfg, init), Grants(cfg, init), e, now);
    }
  }

  /** The code stands for this counter: it has the right number of digits, and the counter is the first one
      within the skew of the current time step that has this code. */
  predicate StandsFor(cfg: Config, secret: string, code: string, now: nat, c: int)
    requires cfg.Valid()
  {
    && |TrimSpace(code)| == cfg.digits && cfg.hotp(secret, c) == TrimSpace(code)
    && now / cfg.step - cfg.skew <= c <= now / cfg.step + cfg.skew
    && forall d | now / cfg.step - cfg.skew <= d < c :: cfg.hotp(secret, d) != TrimSpace(code)
  }

  lemma CandidateIs(cfg: Config, secret: string, code: string, now: nat, c: int)
    requires cfg.Valid()
    ensures Candidate(cfg, secret, code, now) == Some(c) <==> StandsFor(cfg, secret, code, now, c)
  {
    hide TrimSpace;
  }

  /** After any run from an empty table a code is accepted exactly if it stands for a counter and no code was
      accepted under that counter's key within the last `ttl` ticks: the sweeps do not show. */
  lemma AcceptedExactly(cfg: Config, events: seq<Event>, secret: string, code: string, now: nat)
    requires cfg.Valid() && InOrder(events, now)
    ensures Verifies(cfg, TableAfter(cfg, events), secret, code, now)
            <==> exists c :: StandsFor(cfg, secret, code, now, c)
                             && forall g | g in Grants(cfg, events) && g.0 == cfg.key(secret, c) :: now > g.1 + cfg.ttl
  {
    TableRemembers(cfg, events, now);
    var m := Candidate(cfg, secret, code, now);
    forall c ensures m == Some(c) <==> StandsFor(cfg, secret, code, now, c) {
      CandidateIs(cfg, secret, code, now, c);
    }
    hide Candidate, StandsFor, Grants, TableAfter, InOrder;
    if m.Some? {
      var used, k := TableAfter(cfg, events), cfg.key(secret, m.value);
      if k in used && now <= used[k] {
        var g :| g in Grants(cfg, events) && g.0 == k && used[k] == g.1 + cfg.ttl;
      }
    }
  }

  /** Right after a sweep the table holds no claim whose life was over at the sweep's reading, and still every
      one whose life is not over now. */
  lemma SweepForgetsExactly(cfg: Config, events: seq<Event>, now: nat, k: string)
    requires cfg.Valid() && InOrder(events, now) && events != [] && events[|events| - 1].SweepAt?
    ensures var used := TableAfter(cfg, events);
            && (k in used ==> exists g :: g in Grants(cfg, events) && g.0 == k && events[|events| - 1].seen <= g.1 + cfg.ttl)
            && (forall g | g in Grants(cfg, events) && g.0 == k && now <= g.1 + cfg.ttl :: k in used)
  {
    TableRemembers(cfg, events, now);
    hide Grants, InOrder, Verifies, Candidate;
    var used := TableAfter(cfg, events);
    assert used == Sweep(TableAfter(cfg, events[..|events| - 1]), events[|events| - 1].seen);
    if k in used {
      var g :| g in Grants(cfg, events) && g.0 == k && used[k] == g.1 + cfg.ttl;
    }
  }
}
