/** The lockout bound is reached: wrong passwords at the beginning of every lock period use up its first
    term, and failures that the database does not record come on top of it without limit. */
module LockoutTight {
  import opened Base
  import opened Auth
  import opened Lockout

  /** An account that `password` is a wrong password of, and that is not locked at `now`. */
  predicate Target(cfg: Config, w: World, n: string, password: string, now: int) {
    && n in w.users && w.users[n].enabled && w.users[n].hash != "" && !cfg.matches(w.users[n].hash, password)
    && (w.users[n].lockedUntil.Some? ==> w.users[n].lockedUntil.value <= now)
  }

  /** Every step of the run compares a wrong password of the account. */
  predicate AllWrong(cfg: Config, w: World, run: seq<Timed>, n: string)
    requires cfg.Valid()
    decreases |run|
  {
    run == [] || (
      && Compares(cfg, w, run[0].request, run[0].at, n)
      && !cfg.matches(w.users[n].hash, run[0].request.password)
      && AllWrong(cfg, Step(cfg, w, run[0].request, run[0].at).0, run[1..], n))
  }

  /** How many logins of the run the database fails to record. */
  function Lost(run: seq<Timed>): nat {
    if run == [] then 0
    else (if run[0].request.Login? && !run[0].request.recordOk then 1 else 0) + Lost(run[1..])
  }

  lemma {:induction false} AllWrongCounts(cfg: Config, w: World, run: seq<Timed>, n: string)
    requires cfg.Valid() && AllWrong(cfg, w, run, n)
    ensures Comparisons(cfg, w, run, n) == |run| && Unrecorded(cfg, w, run, n) == Lost(run) && NeverRight(cfg, w, run, n)
    decreases |run|
  {
    if run != [] {
      hide Step;
      AllWrongCounts(cfg, Step(cfg, w, run[0].request, run[0].at).0, run[1..], n);
    }
  }

  lemma {:induction false} AllWrongAppend(cfg: Config, w: World, a: seq<Timed>, b: seq<Timed>, n: string)
    requires cfg.Valid() && AllWrong(cfg, w, a, n) && AllWrong(cfg, After(cfg, w, a), b, n)
    ensures AllWrong(cfg, w, a + b, n) && Lost(a + b) == Lost(a) + Lost(b)
    decreases |a|
  {
    if a == [] {
      assert a + b == b;
    } else {
      hide Step, Compares;
      assert (a + b)[1..] == a[1..] + b;
      AllWrongAppend(cfg, Step(cfg, w, a[0].request, a[0].at).0, a[1..], b, n);
    }
  }

  function Tries(n: string, password: string, ok: bool, count: nat, at: nat): seq<Timed> {
    if count == 0 then [] else [Timed(Login(n, password, ok), at)] + Tries(n, password, ok, count - 1, at)
  }

  /** `rounds` batches of recorded attempts, one at the beginning of each lock period. */
  function Ladder(n: string, password: string, count: nat, at: nat, period: nat, rounds: nat): seq<Timed>
    decreases rounds
  {
    if rounds == 0 then []
    else Tries(n, password, true, count, at) + Ladder(n, password, count, at + period, period, rounds - 1)
  }

  lemma WrongLogin(cfg: Config, w: World, n: string, password: string, ok: bool, now: nat)
    requires Limits(cfg) && Target(cfg, w, n, password, now)
    ensures Compares(cfg, w, Login(n, password, ok), now, n)
    ensures Step(cfg, w, Login(n, password, ok), now).0
            == if ok then Update(w, n, RecordFailure(cfg, w.users[n], now)) else w
  {
    hide RecordFailure;
  }

  /** Attempts that are not recorded are all compared and leave no trace. */
  lemma {:induction false} LostTries(cfg: Config, w: World, n: string, password: string, count: nat, at: nat)
    requires Limits(cfg) && Target(cfg, w, n, password, at)
    ensures var run := Tries(n, password, false, count, at);
            AllWrong(cfg, w, run, n) && Lost(run) == |run| == count && After(cfg, w, run) == w
    decreases count
  {
    if count > 0 {
      WrongLogin(cfg, w, n, password, false, at);
      hide Step, Compares, Target;
      LostTries(cfg, w, n, password, count - 1, at);
      assert Tries(n, password, false, count, at)[1..] == Tries(n, password, false, count - 1, at);
    }
  }

  /** A wrong, recorded login before a run of wrong ones. */
  lemma WrongFirst(cfg: Config, w: World, e: Timed, rest: seq<Timed>, n: string)
    requires cfg.Valid() && Compares(cfg, w, e.request, e.at, n) && !cfg.matches(w.users[n].hash, e.request.password)
    requires AllWrong(cfg, Step(cfg, w, e.request, e.at).0, rest, n) && e.request.recordOk
    ensures AllWrong(cfg, w, [e] + rest, n) && Lost([e] + rest) == Lost(rest)
    ensures After(cfg, w, [e] + rest) == After(cfg, Step(cfg, w, e.request, e.at).0, rest)
  {
    hide Step, Compares;
    assert ([e] + rest)[1..] == rest;
  }

  function LockedAt(cfg: Config, u: User, at: int): User {
    u.(loginFails := 0, lockedUntil := Some(at + cfg.LockTicks()))
  }

  /** A batch of recorded attempts that fills the counter locks the account for one period. */
  lemma {:induction false} BatchLocks(cfg: Config, w: World, n: string, password: string, count: nat, at: nat)
    requires Limits(cfg) && Target(cfg, w, n, password, at) && count >= 1
    requires w.users[n].loginFails >= 0 && w.users[n].loginFails + count == cfg.maxFails
    ensures var run := Tries(n, password, true, count, at);
            && AllWrong(cfg, w, run, n) && Lost(run) == 0 && |run| == count
            && After(cfg, w, run) == Update(w, n, LockedAt(cfg, w.users[n], at))
    decreases count
  {
    hide Step, Compares, AllWrong, After;
    var e, rest := Timed(Login(n, password, true), at), Tries(n, password, true, count - 1, at);
    var next := Update(w, n, RecordFailure(cfg, w.users[n], at));
    WrongLogin(cfg, w, n, password, true, at);
    if count > 1 {
      BatchLocks(cfg, next, n, password, count - 1, at);
      assert Update(next, n, LockedAt(cfg, next.users[n], at)) == Update(w, n, LockedAt(cfg, w.users[n], at));
    } else {
      NothingTried(cfg, next, n);
    }
    WrongFirst(cfg, w, e, rest, n);
  }

  lemma NothingTried(cfg: Config, w: World, n: string)
    requires cfg.Valid()
    ensures AllWrong(cfg, w, [], n) && After(cfg, w, []) == w
  {
  }

  lemma OneMore(m: int, rounds: int)
    ensures m * rounds == m + m * (rounds - 1)
  {
  }

  lemma {:induction false} LadderIsWrong(cfg: Config, w: World, n: string, password: string, at: nat, rounds: nat)
    requires Limits(cfg) && Target(cfg, w, n, password, at) && w.users[n].loginFails == 0
    ensures var run := Ladder(n, password, cfg.maxFails, at, cfg.LockTicks(), rounds);
            AllWrong(cfg, w, run, n) && Lost(run) == 0 && |run| == cfg.maxFails * rounds
    decreases rounds
  {
    if rounds > 0 {
      var period := cfg.LockTicks();
      var first := Tries(n, password, true, cfg.maxFails, at);
      BatchLocks(cfg, w, n, password, cfg.maxFails, at);
      var next := After(cfg, w, first);
      assert Target(cfg, next, n, password, at + period) && next.users[n].loginFails == 0;
      hide After, AllWrong, Lost, Tries, Target;
      LadderIsWrong(cfg, next, n, password, at + period, rounds - 1);
      AllWrongAppend(cfg, w, first, Ladder(n, password, cfg.maxFails, at + period, period, rounds - 1), n);
      OneMore(cfg.maxFails, rounds);
    }
  }

  // ---- when the attempts are made ----

  predicate Within(run: seq<Timed>, lo: int, hi: int) {
    forall e | e in run :: lo <= e.at <= hi
  }

  lemma {:induction false} MonotoneAppend(a: seq<Timed>, b: seq<Timed>, lo: nat, mid: nat, hi: nat)
    requires Monotone(a, lo) && Within(a, lo, mid) && Monotone(b, mid) && lo <= mid
    ensures Monotone(a + b, lo)
    decreases |a|
  {
    if a == [] {
      assert a + b == b;
    } else {
      assert (a + b)[1..] == a[1..] + b;
      assert a[0] in a && forall e | e in a[1..] :: e in a;
      LaterStart(a[1..], a[0].at, mid);
      MonotoneAppend(a[1..], b, a[0].at, mid, hi);
    }
  }

  lemma {:induction false} LaterStart(a: seq<Timed>, lo: nat, mid: nat)
    requires Monotone(a, lo) && Within(a, 0, mid)
    ensures Within(a, lo, mid)
    decreases |a|
  {
    if a != [] {
      assert a[0] in a && forall e | e in a[1..] :: e in a;
      LaterStart(a[1..], a[0].at, mid);
      assert forall e | e in a :: e == a[0] || e in a[1..];
    }
  }

  lemma {:induction false} TriesTimed(n: string, password: string, ok: bool, count: nat, at: nat)
    ensures var run := Tries(n, password, ok, count, at);
            Monotone(run, at) && Within(run, at, at)
    decreases count
  {
    if count > 0 {
      TriesTimed(n, password, ok, count - 1, at);
      assert Tries(n, password, ok, count, at)[1..] == Tries(n, password, ok, count - 1, at);
    }
  }

  lemma {:induction false} LadderTimed(n: string, password: string, count: nat, at: nat, period: nat, rounds: nat, hi: nat)
    requires rounds >= 1 ==> at + period * (rounds - 1) <= hi
    ensures var run := Ladder(n, password, count, at, period, rounds);
            Monotone(run, at) && Within(run, at, hi)
    decreases rounds
  {
    if rounds > 0 {
      var first, rest := Tries(n, password, true, count, at), Ladder(n, password, count, at + period, period, rounds - 1);
      assert period * (rounds - 1) == period + period * (rounds - 2);
      assert rounds >= 2 ==> period * (rounds - 2) >= 0;
      TriesTimed(n, password, true, count, at);
      LadderTimed(n, password, count, at + period, period, rounds - 1, hi);
      hide Monotone;
      EarlierStart(rest, at + period, at);
      MonotoneAppend(first, rest, at, at, hi);
    }
  }

  lemma EarlierStart(run: seq<Timed>, clock: nat, lo: nat)
    requires Monotone(run, clock) && lo <= clock
    ensures Monotone(run, lo)
  {
  }

  // ---- both terms of the bound are needed ----

  /** An account with this password hash, created over an identity provider at the first tick. */
  function Setup(n: string, hash: string): seq<Timed> {
    [Timed(SsoLogin(n, "id", false), 0), Timed(EditUser(n, hash, true, false, false), 0)]
  }

  lemma SetupIsTarget(cfg: Config, n: string, hash: string, password: string, lo: nat)
    requires Limits(cfg) && n != "" && hash != "" && !cfg.matches(hash, password)
    ensures var w := After(cfg, EMPTY, Setup(n, hash));
            Target(cfg, w, n, password, lo) && w.users[n].loginFails == 0
    ensures Monotone(Setup(n, hash), 0) && Within(Setup(n, hash), 0, 0)
  {
    var run := Setup(n, hash);
    assert run[1..] == [run[1]] && [run[1]][1..] == [];
    var w1 := Step(cfg, EMPTY, run[0].request, 0).0;
    assert n in w1.users && w1.users[n] == FreshUser("id");
    assert After(cfg, w1, [run[1]]) == Step(cfg, w1, run[1].request, 0).0;
  }

  /** At a single tick any number of passwords can be compared, if no failure of them is recorded: the
      first term of the bound alone does not hold. */
  lemma UnrecordedComparisonsAreFree(cfg: Config, n: string, hash: string, password: string, lo: nat, count: nat)
    returns (before: seq<Timed>, during: seq<Timed>)
    requires Limits(cfg) && n != "" && hash != "" && !cfg.matches(hash, password)
    ensures Monotone(before, 0) && Within(before, 0, lo) && Monotone(during, lo) && Within(during, lo, lo)
    ensures var w := After(cfg, EMPTY, before);
            NeverRight(cfg, w, during, n) && Comparisons(cfg, w, during, n) == Unrecorded(cfg, w, during, n) == count
  {
    before, during := Setup(n, hash), Tries(n, password, false, count, lo);
    SetupIsTarget(cfg, n, hash, password, lo);
    var w := After(cfg, EMPTY, before);
    LostTries(cfg, w, n, password, count, lo);
    AllWrongCounts(cfg, w, during, n);
    TriesTimed(n, password, false, count, lo);
  }

  /** The lock periods that begin within a span. */
  function Rounds(span: nat, period: int): (n: nat)
    requires period >= 1
    ensures n == span / period + 1 && period * (n - 1) <= span
  {
    FloorLe(span / period, span, period);
    FloorLe(0, span, period);
    span / period + 1
  }

  /** The bound is reached for every span and every number of unrecorded failures, so neither term can
      be made smaller. */
  lemma LockoutBoundIsTight(cfg: Config, n: string, hash: string, password: string, lo: nat, span: nat, lost: nat)
    returns (before: seq<Timed>, during: seq<Timed>)
    requires Limits(cfg) && n != "" && hash != "" && !cfg.matches(hash, password)
    ensures Monotone(before, 0) && Within(before, 0, lo) && Monotone(during, lo) && Within(during, lo, lo + span)
    ensures var w := After(cfg, EMPTY, before);
            && NeverRight(cfg, w, during, n) && Unrecorded(cfg, w, during, n) == lost
            && Comparisons(cfg, w, during, n) == cfg.maxFails * (span / (cfg.lockSec * 1_000_000_000) + 1) + lost
  {
    hide After, AllWrong, Monotone, Comparisons, Unrecorded, NeverRight, Tries, Ladder, Lost, Setup, Target;
    var period := cfg.LockTicks();
    var rounds := Rounds(span, period);
    var free, ladder := Tries(n, password, false, lost, lo), Ladder(n, password, cfg.maxFails, lo, period, rounds);
    before, during := Setup(n, hash), free + ladder;
    SetupIsTarget(cfg, n, hash, password, lo);
    var w := After(cfg, EMPTY, before);
    LostTries(cfg, w, n, password, lost, lo);
    LadderIsWrong(cfg, w, n, password, lo, rounds);
    AllWrongAppend(cfg, w, free, ladder, n);
    AllWrongCounts(cfg, w, during, n);
    TriesTimed(n, password, false, lost, lo);
    LadderTimed(n, password, cfg.maxFails, lo, period, rounds, lo + span);
    MonotoneAppend(free, ladder, lo, lo, lo + span);
  }
}
