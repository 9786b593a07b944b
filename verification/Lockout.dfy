/** How many passwords can be tried against one account: the lockout of Login and of
    RecordLoginFailure, over whole runs of all the handlers in module Auth. */
module Lockout {
  import opened Base
  import opened Auth
  import Totp

  /** One batch of attempts for every lock period begun in `x` ticks. */
  function Batches(m: nat, period: int, x: int): nat
    requires period >= 1
    decreases if x < 0 then 0 else x + 1
  {
    if x < 0 then 0 else m + Batches(m, period, x - period)
  }

  lemma {:induction false} BatchesMonotone(m: nat, period: int, x: int, y: int)
    requires period >= 1 && x <= y
    ensures Batches(m, period, x) <= Batches(m, period, y)
    decreases if y < 0 then 0 else y + 1
  {
    if x >= 0 {
      BatchesMonotone(m, period, x - period, y - period);
    }
  }

  lemma {:induction false} BatchesClosedForm(m: nat, period: int, x: int)
    requires period >= 1 && x >= 0
    ensures Batches(m, period, x) == m * (x / period + 1)
    decreases x
  {
    var q := x / period;
    if x < period {
      FloorLe(1, x, period);
      FloorLe(0, x, period);
      assert q == 0;
    } else {
      BatchesClosedForm(m, period, x - period);
      Shift(x, period);
      assert m * (q + 1) == m + m * q;
    }
  }

  lemma Shift(x: int, period: int)
    requires period >= 1
    ensures (x - period) / period == x / period - 1
  {
    var q := x / period;
    FloorLe(q, x, period);
    FloorLe(q + 1, x, period);
    FloorLe(q - 1, x - period, period);
    FloorLe(q, x - period, period);
    assert (q - 1) * period == q * period - period;
    assert (q + 1) * period == q * period + period;
  }

  predicate Limits(cfg: Config) {
    cfg.Valid() && cfg.maxFails >= 1 && cfg.lockSec >= 1
  }

  /** The counter stays below the limit, and no lock reaches further than one period ahead. */
  ghost predicate LockInv(cfg: Config, w: World, clock: int) {
    forall n | n in w.users ::
      && 0 <= w.users[n].loginFails < cfg.maxFails
      && (w.users[n].lockedUntil.Some? ==> w.users[n].lockedUntil.value <= clock + cfg.LockTicks())
  }

  predicate SameCounter(u: User, v: User) {
    u.loginFails == v.loginFails && u.lockedUntil == v.lockedUntil
  }

  predicate CounterMoves(cfg: Config, u: User, v: User, now: int) {
    SameCounter(v, u) || SameCounter(v, RecordFailure(cfg, u, now)) || SameCounter(v, ClearFailures(u))
  }

  /** What a step from `w` to `v` does to one account's counter: it stays, records one failure or is
      cleared; only the right password clears it, and a failing comparison is recorded if the database
      takes it. An account the step adds has a fresh counter. */
  predicate CounterOutcome(cfg: Config, w: World, v: World, r: Request, now: nat, n: string) {
    && (n in w.users ==> n in v.users && CounterMoves(cfg, w.users[n], v.users[n], now))
    && (n !in w.users && n in v.users ==> SameCounter(v.users[n], FreshUser("")))
    && (n in w.users && n in v.users && !SameCounter(v.users[n], w.users[n])
        && !SameCounter(v.users[n], RecordFailure(cfg, w.users[n], now)) ==>
          Compares(cfg, w, r, now, n) && cfg.matches(w.users[n].hash, r.password))
    && (n in v.users && Compares(cfg, w, r, now, n) && !cfg.matches(w.users[n].hash, r.password) && r.recordOk ==>
          SameCounter(v.users[n], RecordFailure(cfg, w.users[n], now)))
  }

  /** What it means to compare: a login that compares is answered with a token exactly if the password
      is right, and one that does not is blind to its password. */
  lemma ComparingDecides(cfg: Config, w: World, n: string, password: string, other: string, ok: bool, now: nat)
    requires cfg.Valid()
    ensures Compares(cfg, w, Login(n, password, ok), now, n) ==>
              (LoginStep(cfg, w, n, password, ok, now).1.Token? <==> cfg.matches(w.users[n].hash, password))
    ensures !Compares(cfg, w, Login(n, password, ok), now, n) ==>
              LoginStep(cfg, w, n, password, ok, now) == LoginStep(cfg, w, n, other, ok, now)
  {
    hide RecordFailure;
  }

  /** Every handler does that; and a login for the account that makes no comparison does the same, and
      answers the same, whatever the password. */
  lemma CounterStep(cfg: Config, w: World, r: Request, now: nat, n: string)
    requires Limits(cfg)
    ensures CounterOutcome(cfg, w, Step(cfg, w, r, now).0, r, now, n)
    ensures r.Login? && r.username == n && !Compares(cfg, w, r, now, n) ==>
              forall other :: Step(cfg, w, r.(password := other), now) == Step(cfg, w, r, now)
    ensures Compares(cfg, w, r, now, n) ==> (Step(cfg, w, r, now).1.Token? <==> cfg.matches(w.users[n].hash, r.password))
  {
    if r.Login? && r.username == n {
      forall other
        ensures !Compares(cfg, w, r, now, n) ==> Step(cfg, w, r.(password := other), now) == Step(cfg, w, r, now)
        ensures Compares(cfg, w, r, now, n) ==> (Step(cfg, w, r, now).1.Token? <==> cfg.matches(w.users[n].hash, r.password))
      {
        ComparingDecides(cfg, w, n, r.password, other, r.recordOk, now);
        hide LoginStep;
      }
    }
    if r.Login? {
      LoginCounter(cfg, w, r, now, n);
    } else if r.VerifyMfa? {
      VerifyMfaCounter(cfg, w, r, now, n);
    } else {
      OtherCounter(cfg, w, r, now, n);
    }
    hide CounterOutcome, LoginStep, VerifyMfaStep, VerifyPasskeyStep, SsoLoginStep, ConfirmMfaStep;
  }

  lemma LoginCounter(cfg: Config, w: World, r: Request, now: nat, n: string)
    requires Limits(cfg) && r.Login?
    ensures CounterOutcome(cfg, w, LoginStep(cfg, w, r.username, r.password, r.recordOk, now).0, r, now, n)
  {
    hide RecordFailure, Locks;
  }

  /** A step that compares no password and changes at most the row of `k`. */
  lemma RowCounter(cfg: Config, w: World, v: World, r: Request, now: nat, n: string, k: string)
    requires !r.Login? && k in w.users && k in v.users && v.users == w.users[k := v.users[k]]
    requires SameCounter(v.users[k], w.users[k]) || v.users[k] == RecordFailure(cfg, w.users[k], now)
    ensures CounterOutcome(cfg, w, v, r, now, n)
  {
    hide RecordFailure, ClearFailures;
  }

  lemma VerifyMfaCounter(cfg: Config, w: World, r: Request, now: nat, n: string)
    requires Limits(cfg) && r.VerifyMfa?
    ensures CounterOutcome(cfg, w, VerifyMfaStep(cfg, w, r, now).0, r, now, n)
  {
    var v := VerifyMfaStep(cfg, w, r, now).0;
    hide Totp.AfterVerify, Totp.Verifies, Spend, HasCode, RecordFailure, ClearFailures, Locks, CounterOutcome;
    if VerifyMfaStep(cfg, w, r, now).1.Token? {
      CodeKeepsCounter(cfg, w, r, now);
      RowCounter(cfg, w, v, r, now, n, w.issued[r.jti].username);
    } else if v.users == w.users {
      SameRows(cfg, w, v, r, now, n);
    } else {
      RowCounter(cfg, w, v, r, now, n, w.issued[r.jti].username);
    }
  }

  /** A code that is accepted changes the user's row at most, and not its counter. */
  lemma CodeKeepsCounter(cfg: Config, w: World, r: Request, now: nat)
    requires cfg.Valid() && r.VerifyMfa? && VerifyMfaStep(cfg, w, r, now).1.Token?
    ensures var v := VerifyMfaStep(cfg, w, r, now).0;
            && r.jti in w.issued
            && var k := w.issued[r.jti].username;
               k in w.users && k in v.users && v.users == w.users[k := v.users[k]] && SameCounter(v.users[k], w.users[k])
  {
    hide Totp.AfterVerify, Totp.Verifies, Spend, HasCode, RecordFailure, Locks;
  }

  lemma SameRows(cfg: Config, w: World, v: World, r: Request, now: nat, n: string)
    requires !r.Login? && v.users == w.users
    ensures CounterOutcome(cfg, w, v, r, now, n)
  {
  }

  lemma OtherCounter(cfg: Config, w: World, r: Request, now: nat, n: string)
    requires Limits(cfg) && !r.Login? && !r.VerifyMfa?
    ensures CounterOutcome(cfg, w, Step(cfg, w, r, now).0, r, now, n)
  {
    hide Totp.AfterVerify, Totp.Verifies, LoginStep, VerifyMfaStep, RecordFailure, ClearFailures, Validates, CounterOutcome;
    var v := Step(cfg, w, r, now).0;
    if v.users == w.users {
      SameRows(cfg, w, v, r, now, n);
    } else if r.username in w.users {
      RowCounter(cfg, w, v, r, now, n, r.username);
    } else {
      NewRow(cfg, w, v, r, now, n, r.username, r.id);
    }
  }

  lemma NewRow(cfg: Config, w: World, v: World, r: Request, now: nat, n: string, k: string, id: string)
    requires !r.Login? && k !in w.users && v.users == w.users[k := FreshUser(id)]
    ensures CounterOutcome(cfg, w, v, r, now, n)
  {
  }

  lemma StepKeepsLockInv(cfg: Config, w: World, r: Request, now: nat)
    requires Limits(cfg) && LockInv(cfg, w, now)
    ensures LockInv(cfg, Step(cfg, w, r, now).0, now)
  {
    var w' := Step(cfg, w, r, now).0;
    forall n | n in w'.users
      ensures && 0 <= w'.users[n].loginFails < cfg.maxFails
              && (w'.users[n].lockedUntil.Some? ==> w'.users[n].lockedUntil.value <= now + cfg.LockTicks())
    {
      CounterStep(cfg, w, r, now, n);
      hide Step;
    }
  }

  /** The comparisons of the account's password that a run makes, and those of them whose failure
      the database did not take. */
  function Comparisons(cfg: Config, w: World, run: seq<Timed>, n: string): nat
    requires cfg.Valid()
    decreases |run|
  {
    if run == [] then 0
    else
      (if Compares(cfg, w, run[0].request, run[0].at, n) then 1 else 0)
      + Comparisons(cfg, Step(cfg, w, run[0].request, run[0].at).0, run[1..], n)
  }

  function Unrecorded(cfg: Config, w: World, run: seq<Timed>, n: string): nat
    requires cfg.Valid()
    decreases |run|
  {
    if run == [] then 0
    else
      (if Compares(cfg, w, run[0].request, run[0].at, n) && !run[0].request.recordOk then 1 else 0)
      + Unrecorded(cfg, Step(cfg, w, run[0].request, run[0].at).0, run[1..], n)
  }

  /** No comparison of the run finds the right password. */
  predicate NeverRight(cfg: Config, w: World, run: seq<Timed>, n: string)
    requires cfg.Valid()
    decreases |run|
  {
    run == [] || (
      && (Compares(cfg, w, run[0].request, run[0].at, n) ==> !cfg.matches(w.users[n].hash, run[0].request.password))
      && NeverRight(cfg, Step(cfg, w, run[0].request, run[0].at).0, run[1..], n))
  }

  /** The second run is the first one with other passwords in those logins to the account that make no
      comparison. */
  predicate OtherUncounted(cfg: Config, w: World, run: seq<Timed>, other: seq<Timed>, n: string)
    requires cfg.Valid()
    decreases |run|
  {
    if run == [] then other == []
    else
      && other != [] && other[0].at == run[0].at
      && (other[0].request == run[0].request || OtherPassword(cfg, w, run[0], other[0], n))
      && OtherUncounted(cfg, Step(cfg, w, run[0].request, run[0].at).0, run[1..], other[1..], n)
  }

  predicate OtherPassword(cfg: Config, w: World, e: Timed, f: Timed, n: string) {
    && e.request.Login? && e.request.username == n && f.request.Login?
    && f.request == e.request.(password := f.request.password) && !Compares(cfg, w, e.request, e.at, n)
  }

  /** Passwords that are not counted as compared change nothing: neither a reply of the run nor the
      world after it. */
  lemma {:induction false} UncountedPasswordsAreUnused(cfg: Config, w: World, run: seq<Timed>, other: seq<Timed>, n: string)
    requires Limits(cfg) && OtherUncounted(cfg, w, run, other, n)
    ensures Replies(cfg, w, other) == Replies(cfg, w, run) && After(cfg, w, other) == After(cfg, w, run)
    decreases |run|
  {
    if run != [] {
      var r, now := run[0].request, run[0].at;
      CounterStep(cfg, w, r, now, n);
      hide Step, Compares, CounterOutcome;
      if OtherPassword(cfg, w, run[0], other[0], n) {
        assert Step(cfg, w, r.(password := other[0].request.password), now) == Step(cfg, w, r, now);
      }
      UncountedPasswordsAreUnused(cfg, Step(cfg, w, r, now).0, run[1..], other[1..], n);
    }
  }

  /** The recorded comparisons still possible up to `hi`. While the account is locked, failures of the
      second factor add to the counter without costing a comparison; they can only move the lock. */
  ghost function Budget(cfg: Config, w: World, n: string, clock: int, hi: int): int
    requires Limits(cfg)
  {
    if n !in w.users then Batches(cfg.maxFails, cfg.LockTicks(), hi - clock)
    else Remaining(cfg, w.users[n], clock, hi)
  }

  ghost function Remaining(cfg: Config, u: User, clock: int, hi: int): int
    requires Limits(cfg)
  {
    var period := cfg.LockTicks();
    if u.lockedUntil.Some? && u.lockedUntil.value > clock
    then Batches(cfg.maxFails, period, hi - u.lockedUntil.value)
    else Batches(cfg.maxFails, period, hi - clock) - u.loginFails
  }

  lemma RemainingShrinks(cfg: Config, u: User, clock: int, now: int, hi: int)
    requires Limits(cfg) && clock <= now <= hi && 0 <= u.loginFails < cfg.maxFails
    ensures Remaining(cfg, u, now, hi) <= Remaining(cfg, u, clock, hi)
  {
    var m, period := cfg.maxFails, cfg.LockTicks();
    BatchesMonotone(m, period, hi - now, hi - clock);
    if u.lockedUntil.Some? && u.lockedUntil.value <= now {
      BatchesMonotone(m, period, hi - now, hi - u.lockedUntil.value);
    }
  }

  lemma RecordingCosts(cfg: Config, u: User, now: int, hi: int)
    requires Limits(cfg) && now <= hi && 0 <= u.loginFails < cfg.maxFails
    requires u.lockedUntil.Some? ==> u.lockedUntil.value <= now + cfg.LockTicks()
    ensures Remaining(cfg, RecordFailure(cfg, u, now), now, hi)
            + (if u.lockedUntil.Some? && now < u.lockedUntil.value then 0 else 1) <= Remaining(cfg, u, now, hi)
  {
    if u.lockedUntil.Some? && now < u.lockedUntil.value {
      BatchesMonotone(cfg.maxFails, cfg.LockTicks(), hi - (now + cfg.LockTicks()), hi - u.lockedUntil.value);
    }
  }

  lemma BudgetShrinks(cfg: Config, w: World, r: Request, clock: nat, now: nat, n: string, hi: int)
    requires Limits(cfg) && LockInv(cfg, w, clock) && clock <= now <= hi
    requires Compares(cfg, w, r, now, n) ==> !cfg.matches(w.users[n].hash, r.password)
    ensures Budget(cfg, Step(cfg, w, r, now).0, n, now, hi)
            + (if Compares(cfg, w, r, now, n) && r.recordOk then 1 else 0) <= Budget(cfg, w, n, clock, hi)
  {
    CounterStep(cfg, w, r, now, n);
    var w' := Step(cfg, w, r, now).0;
    hide Step;
    BatchesMonotone(cfg.maxFails, cfg.LockTicks(), hi - now, hi - clock);
    if n in w.users {
      RemainingShrinks(cfg, w.users[n], clock, now, hi);
      RecordingCosts(cfg, w.users[n], now, hi);
      RemainingOf(cfg, w'.users[n], w.users[n], now, hi);
      RemainingOf(cfg, w'.users[n], RecordFailure(cfg, w.users[n], now), now, hi);
      hide Remaining, RecordFailure;
    }
  }

  lemma RemainingOf(cfg: Config, u: User, v: User, now: int, hi: int)
    requires Limits(cfg)
    ensures SameCounter(u, v) ==> Remaining(cfg, u, now, hi) == Remaining(cfg, v, now, hi)
  {
  }

  lemma {:induction false} BoundFrom(cfg: Config, w: World, run: seq<Timed>, clock: nat, n: string, hi: int)
    requires Limits(cfg) && LockInv(cfg, w, clock) && Monotone(run, clock) && NeverRight(cfg, w, run, n)
    requires clock <= hi && forall e | e in run :: e.at <= hi
    ensures Comparisons(cfg, w, run, n) <= Budget(cfg, w, n, clock, hi) + Unrecorded(cfg, w, run, n)
    decreases |run|
  {
    if run == [] {
      BudgetNonNegative(cfg, w, n, clock, hi);
    } else {
      var e := run[0];
      assert e in run && forall d | d in run[1..] :: d in run;
      BudgetShrinks(cfg, w, e.request, clock, e.at, n, hi);
      StepKeepsLockInv(cfg, w, e.request, e.at);
      hide Step, Budget;
      BoundFrom(cfg, Step(cfg, w, e.request, e.at).0, run[1..], e.at, n, hi);
    }
  }

  lemma BudgetNonNegative(cfg: Config, w: World, n: string, clock: int, hi: int)
    requires Limits(cfg) && LockInv(cfg, w, clock) && clock <= hi
    ensures Budget(cfg, w, n, clock, hi) >= 0
  {
  }

  lemma {:induction false} RunKeepsLockInv(cfg: Config, w: World, run: seq<Timed>, clock: nat, lo: nat)
    requires Limits(cfg) && LockInv(cfg, w, clock) && Monotone(run, clock)
    requires clock <= lo && forall e | e in run :: e.at <= lo
    ensures LockInv(cfg, After(cfg, w, run), lo)
    decreases |run|
  {
    if run != [] {
      var e := run[0];
      assert e in run && forall d | d in run[1..] :: d in run;
      StepKeepsLockInv(cfg, w, e.request, e.at);
      RunKeepsLockInv(cfg, Step(cfg, w, e.request, e.at).0, run[1..], e.at, lo);
    }
  }

  /** The lockout bound: however a run went before, in a span of T ticks in which the right password
      is never given, the passwords tried against one account number at most
      maxFails * (floor(T / lock) + 1), plus one for each failure the database did not record;
      failing second factors, enrolments and edits of the account may interleave. Passwords given beyond
      those counted learn nothing: changing them changes no reply. */
  lemma LockoutBound(cfg: Config, before: seq<Timed>, during: seq<Timed>, n: string, lo: nat, span: nat)
    requires Limits(cfg)
    requires Monotone(before, 0) && forall e | e in before :: e.at <= lo
    requires Monotone(during, lo) && forall e | e in during :: e.at <= lo + span
    requires NeverRight(cfg, After(cfg, EMPTY, before), during, n)
    ensures var w := After(cfg, EMPTY, before);
            Comparisons(cfg, w, during, n)
            <= cfg.maxFails * (span / (cfg.lockSec * 1_000_000_000) + 1) + Unrecorded(cfg, w, during, n)
    ensures var w := After(cfg, EMPTY, before);
            forall other | OtherUncounted(cfg, w, during, other, n) ::
              Replies(cfg, w, other) == Replies(cfg, w, during) && After(cfg, w, other) == After(cfg, w, during)
  {
    RunKeepsLockInv(cfg, EMPTY, before, 0, lo);
    var w := After(cfg, EMPTY, before);
    BoundFrom(cfg, w, during, lo, n, lo + span);
    BudgetAtMost(cfg, w, n, lo, span);
    forall other | OtherUncounted(cfg, w, during, other, n)
      ensures Replies(cfg, w, other) == Replies(cfg, w, during) && After(cfg, w, other) == After(cfg, w, during)
    {
      UncountedPasswordsAreUnused(cfg, w, during, other, n);
    }
  }

  lemma BudgetAtMost(cfg: Config, w: World, n: string, lo: nat, span: nat)
    requires Limits(cfg) && LockInv(cfg, w, lo)
    ensures Budget(cfg, w, n, lo, lo + span) <= cfg.maxFails * (span / cfg.LockTicks() + 1)
  {
    var m, period := cfg.maxFails, cfg.LockTicks();
    BatchesClosedForm(m, period, span);
    if n in w.users && w.users[n].lockedUntil.Some? {
      var lock := w.users[n].lockedUntil.value;
      if lock > lo {
        BatchesMonotone(m, period, lo + span - lock, span);
      }
    }
  }
}
