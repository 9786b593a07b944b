/** What stands behind every session of a run: the request that was answered with it, and what that
    request showed in the world it met. */
module MfaSessions {
  import opened Base
  import opened Auth
  import opened MfaProtocol
  import Totp

  // ---- the step behind a log entry ----

  /** The world that request number `p` of a run meets. */
  function Before(cfg: Config, w: World, run: seq<Timed>, p: nat): World
    requires cfg.Valid() && p <= |run|
  {
    After(cfg, w, run[..p])
  }

  /** The number of the request whose step wrote entry `k` of the log. */
  function Origin(cfg: Config, w: World, run: seq<Timed>, k: nat): (p: nat)
    requires cfg.Valid() && |w.log| <= k < |After(cfg, w, run).log|
    ensures p < |run|
    decreases |run|
  {
    var v := Step(cfg, w, run[0].request, run[0].at).0;
    if k < |v.log| then 0 else 1 + Origin(cfg, v, run[1..], k)
  }

  lemma BeforeNext(cfg: Config, w: World, run: seq<Timed>, p: nat)
    requires cfg.Valid() && p < |run|
    ensures Before(cfg, w, run, p + 1) == Step(cfg, Before(cfg, w, run, p), run[p].request, run[p].at).0
  {
    hide Step;
    assert run[..p + 1] == run[..p] + [run[p]];
    assert [run[p]][1..] == [];
    AfterAppend(cfg, w, run[..p], [run[p]]);
  }

  lemma BeforeCons(cfg: Config, w: World, run: seq<Timed>, p: nat)
    requires cfg.Valid() && 0 < p <= |run|
    ensures Before(cfg, w, run, p) == Before(cfg, Step(cfg, w, run[0].request, run[0].at).0, run[1..], p - 1)
  {
    hide Step;
    assert run[..p][1..] == run[1..][..p - 1];
  }

  /** The log only grows, by at most one entry a step. */
  lemma StepLogs(cfg: Config, w: World, r: Request, now: nat)
    requires cfg.Valid()
    ensures w.log <= Step(cfg, w, r, now).0.log && |Step(cfg, w, r, now).0.log| <= |w.log| + 1
  {
    StepLists(cfg, w, r, now);
    hide Step;
  }

  lemma {:induction false} LogGrowsFrom(cfg: Config, w: World, run: seq<Timed>)
    requires cfg.Valid()
    ensures w.log <= After(cfg, w, run).log
    decreases |run|
  {
    if run != [] {
      StepLogs(cfg, w, run[0].request, run[0].at);
      hide Step;
      LogGrowsFrom(cfg, Step(cfg, w, run[0].request, run[0].at).0, run[1..]);
    }
  }

  /** The entry is the first step's own. */
  lemma OriginHere(cfg: Config, w: World, run: seq<Timed>, k: nat)
    requires cfg.Valid() && |w.log| <= k < |After(cfg, w, run).log| && Origin(cfg, w, run, k) == 0
    ensures Before(cfg, w, run, 0).log == After(cfg, w, run).log[..k]
    ensures Before(cfg, w, run, 1).log == After(cfg, w, run).log[..k + 1]
  {
    var v := Step(cfg, w, run[0].request, run[0].at).0;
    StepLogs(cfg, w, run[0].request, run[0].at);
    LogGrowsFrom(cfg, v, run[1..]);
    BeforeNext(cfg, w, run, 0);
    assert Before(cfg, w, run, 0) == w && After(cfg, w, run) == After(cfg, v, run[1..]);
    hide Step, After, Before;
    assert |v.log| == k + 1;
  }

  /** The step at the origin of an entry found the log up to it and left the log with it. */
  lemma {:induction false} OriginIs(cfg: Config, w: World, run: seq<Timed>, k: nat)
    requires cfg.Valid() && |w.log| <= k < |After(cfg, w, run).log|
    ensures var p := Origin(cfg, w, run, k);
            && Before(cfg, w, run, p).log == After(cfg, w, run).log[..k]
            && Before(cfg, w, run, p + 1).log == After(cfg, w, run).log[..k + 1]
    decreases |run|
  {
    if Origin(cfg, w, run, k) == 0 {
      OriginHere(cfg, w, run, k);
    } else {
      var v := Step(cfg, w, run[0].request, run[0].at).0;
      var p := Origin(cfg, v, run[1..], k);
      StepLogs(cfg, w, run[0].request, run[0].at);
      hide Step, Before;
      OriginIs(cfg, v, run[1..], k);
      BeforeCons(cfg, w, run, p + 1);
      BeforeCons(cfg, w, run, p + 2);
    }
  }

  /** Later entries come from later steps. */
  lemma OriginsInOrder(cfg: Config, w: World, run: seq<Timed>, i: nat, k: nat)
    requires cfg.Valid() && |w.log| <= i < k < |After(cfg, w, run).log|
    ensures Origin(cfg, w, run, i) < Origin(cfg, w, run, k)
  {
    OriginIs(cfg, w, run, i);
    OriginIs(cfg, w, run, k);
    var p, q := Origin(cfg, w, run, i), Origin(cfg, w, run, k);
    hide Step, Origin;
    if q <= p {
      assert run[..p] == run[..q] + run[q..p];
      AfterAppend(cfg, w, run[..q], run[q..p]);
      LogGrowsFrom(cfg, Before(cfg, w, run, q), run[q..p]);
    }
  }

  // ---- what a request shows ----

  /** The right password of an account that can be signed in to with one. */
  predicate ShowsPassword(cfg: Config, w: World, r: Request, now: nat, n: string) {
    r.Login? && Compares(cfg, w, r, now, n) && cfg.matches(w.users[n].hash, r.password)
  }

  /** An answer of the identity provider about the user; `mfa` tells whether it reports a second factor. */
  predicate ShowsIdentity(r: Request, n: string, mfa: bool) {
    r.SsoLogin? && r.username == n && r.amrMfa == mfa
  }

  /** A temporary token of the user's that was issued, has not expired and is not found revoked. */
  predicate ShowsToken(cfg: Config, w: World, r: Request, now: nat, n: string) {
    && (r.VerifyMfa? || r.VerifyPasskey?)
    && Validates(cfg, w, r.jti, r.readOk, now) && w.issued[r.jti].mfa && w.issued[r.jti].username == n
    && n in w.users
  }

  /** A one-time code of the user's secret whose counter can be claimed. */
  predicate ShowsCode(cfg: Config, w: World, r: Request, now: nat, n: string)
    requires cfg.Valid() && n in w.users
  {
    r.VerifyMfa? && w.users[n].totp.Some? && Totp.Verifies(cfg.totp, w.used, w.users[n].totp.value, r.code, now)
  }

  predicate ShowsRecovery(w: World, r: Request, n: string)
    requires n in w.users
  {
    r.VerifyMfa? && r.persistOk && HasCode(w.users[n].recovery, r.code)
  }

  predicate ShowsPasskey(cfg: Config, w: World, r: Request, n: string)
    requires n in w.users
  {
    r.VerifyPasskey? && r.row == n && cfg.passkey && w.users[n].passkeyEnabled && r.assertionOk
  }

  predicate ShowsSecondFactor(cfg: Config, w: World, r: Request, now: nat, n: string)
    requires cfg.Valid()
  {
    ShowsToken(cfg, w, r, now, n) && (ShowsCode(cfg, w, r, now, n) || ShowsRecovery(w, r, n) || ShowsPasskey(cfg, w, r, n))
  }

  /** Whether the user needs a second factor when the request comes. */
  predicate Needs(w: World, n: string) {
    n in w.users && w.users[n].MfaRequired()
  }

  /** What the request must have shown in world `w` for the step to `v` to log the entry. */
  predicate Earned(cfg: Config, w: World, v: World, r: Request, now: nat, e: Entry)
    requires cfg.Valid()
  {
    match e
    case FirstFactor(n, jti) =>
      jti == w.nextJti && (ShowsPassword(cfg, w, r, now, n) || ShowsIdentity(r, n, false))
    case Session(n, jti, factor, required, via, readOk, writeOk) =>
      && jti == w.nextJti && required == Needs(w, n)
      && match factor
         case Password => ShowsPassword(cfg, w, r, now, n) && !required && via.None?
         case Idp(mfa) => ShowsIdentity(r, n, mfa) && (required ==> mfa) && via.None?
         case TotpCode => ShowsToken(cfg, w, r, now, n) && ShowsCode(cfg, w, r, now, n) && Presented(r, e)
         case RecoveryCode =>
           ShowsToken(cfg, w, r, now, n) && ShowsRecovery(w, r, n) && Presented(r, e)
           && n in v.users && v.users[n].recovery == Spend(w.users[n].recovery.value, r.code)
         case Passkey => ShowsToken(cfg, w, r, now, n) && ShowsPasskey(cfg, w, r, n) && Presented(r, e)
  }

  /** The session is logged with the token of the request and the outcomes of its blacklist calls. */
  predicate Presented(r: Request, e: Entry) {
    (r.VerifyMfa? || r.VerifyPasskey?)
    && e.Session? && e.via == Some(r.jti) && e.readOk == r.readOk && e.writeOk == r.writeOk
  }

  /** What a step appends to the log was earned. */
  predicate LogsEarned(cfg: Config, w: World, v: World, r: Request, now: nat)
    requires cfg.Valid()
  {
    v.log == w.log
    || (|v.log| == |w.log| + 1 && v.log[..|w.log|] == w.log && Earned(cfg, w, v, r, now, v.log[|w.log|]))
  }

  lemma LoginEarned(cfg: Config, w: World, r: Request, now: nat)
    requires cfg.Valid() && r.Login?
    ensures LogsEarned(cfg, w, LoginStep(cfg, w, r.username, r.password, r.recordOk, now).0, r, now)
  {
    hide RecordFailure, Locks, Totp.Verifies, Totp.AfterVerify, Validates;
  }

  /** A grant after steps that left the log alone is earned if its one entry is. */
  lemma GrantEarned(cfg: Config, w: World, x: World, r: Request, n: string, u: User, now: nat, factor: Factor)
    requires cfg.Valid() && (r.VerifyMfa? || r.VerifyPasskey?) && x.log == w.log && x.nextJti == w.nextJti
    requires var v := Grant(cfg, x, n, u, now, factor, Some(r.jti), r.readOk, r.writeOk);
             Earned(cfg, w, v, r, now, Session(n, w.nextJti, factor, u.MfaRequired(), Some(r.jti), r.readOk, r.writeOk))
    ensures LogsEarned(cfg, w, Grant(cfg, x, n, u, now, factor, Some(r.jti), r.readOk, r.writeOk), r, now)
  {
    hide Earned;
  }

  lemma VerifyMfaEarned(cfg: Config, w: World, r: Request, now: nat)
    requires cfg.Valid() && r.VerifyMfa?
    ensures LogsEarned(cfg, w, VerifyMfaStep(cfg, w, r, now).0, r, now)
  {
    hide RecordFailure, Locks, Totp.Verifies, Totp.AfterVerify, Spend, LogsEarned;
    if VerifyMfaStep(cfg, w, r, now).1.Token? {
      var n := w.issued[r.jti].username;
      var u := w.users[n];
      var v := if u.totp.Some? then w.(used := Totp.AfterVerify(cfg.totp, w.used, u.totp.value, r.code, now)) else w;
      if ShowsCode(cfg, w, r, now, n) {
        GrantEarned(cfg, w, v, r, n, u, now, TotpCode);
      } else {
        var x := Update(v, n, u.(recovery := Spend(u.recovery.value, r.code)));
        GrantEarned(cfg, w, x, r, n, u, now, RecoveryCode);
      }
    } else {
      RefusalLogsNothing(cfg, w, r, now);
    }
  }

  lemma RefusalLogsNothing(cfg: Config, w: World, r: Request, now: nat)
    requires cfg.Valid() && r.VerifyMfa? && !VerifyMfaStep(cfg, w, r, now).1.Token?
    ensures LogsEarned(cfg, w, VerifyMfaStep(cfg, w, r, now).0, r, now)
  {
    hide Earned, RecordFailure, Locks, Totp.Verifies, Totp.AfterVerify, Spend, HasCode, Validates;
  }

  lemma VerifyPasskeyEarned(cfg: Config, w: World, r: Request, now: nat)
    requires cfg.Valid() && r.VerifyPasskey? && UserInv(w)
    ensures LogsEarned(cfg, w, VerifyPasskeyStep(cfg, w, r, now).0, r, now)
  {
    hide Totp.Verifies, Totp.AfterVerify, Spend, HasCode;
  }

  lemma SsoLoginEarned(cfg: Config, w: World, r: Request, now: nat)
    requires cfg.Valid() && r.SsoLogin?
    ensures LogsEarned(cfg, w, SsoLoginStep(cfg, w, r.username, r.id, r.amrMfa, now).0, r, now)
  {
    hide Totp.Verifies, Totp.AfterVerify, Spend, HasCode, Validates;
  }

  lemma StepEarned(cfg: Config, w: World, r: Request, now: nat)
    requires cfg.Valid() && UserInv(w)
    ensures LogsEarned(cfg, w, Step(cfg, w, r, now).0, r, now)
  {
    hide LogsEarned, LoginStep, VerifyMfaStep, VerifyPasskeyStep, SsoLoginStep, UserInv;
    match r {
      case Login(_, _, _) => LoginEarned(cfg, w, r, now);
      case VerifyMfa(_, _, _, _, _, _) => VerifyMfaEarned(cfg, w, r, now);
      case VerifyPasskey(_, _, _, _, _) => VerifyPasskeyEarned(cfg, w, r, now);
      case SsoLogin(_, _, _) => SsoLoginEarned(cfg, w, r, now);
      case _ => OtherLogsNothing(cfg, w, r, now);
    }
  }

  lemma OtherLogsNothing(cfg: Config, w: World, r: Request, now: nat)
    requires cfg.Valid() && !r.Login? && !r.VerifyMfa? && !r.VerifyPasskey? && !r.SsoLogin?
    ensures LogsEarned(cfg, w, Step(cfg, w, r, now).0, r, now)
  {
    hide Earned, Totp.Verifies, Totp.AfterVerify, Totp.Sweep;
  }

  /** What any step of a run logs was earned. */
  lemma StepOfRunEarned(cfg: Config, run: seq<Timed>, p: nat)
    requires cfg.Valid() && p < |run|
    ensures LogsEarned(cfg, Before(cfg, EMPTY, run, p), Before(cfg, EMPTY, run, p + 1), run[p].request, run[p].at)
  {
    hide Step, UserInv, After, Before, LogsEarned;
    BeforeNext(cfg, EMPTY, run, p);
    UsersBefore(cfg, run, p);
    StepEarned(cfg, Before(cfg, EMPTY, run, p), run[p].request, run[p].at);
  }

  /** Every entry of every run was earned by the request whose step wrote it. */
  lemma EntryEarned(cfg: Config, run: seq<Timed>, k: nat)
    requires cfg.Valid() && k < |After(cfg, EMPTY, run).log|
    ensures var p := Origin(cfg, EMPTY, run, k);
            Earned(cfg, Before(cfg, EMPTY, run, p), Before(cfg, EMPTY, run, p + 1), run[p].request, run[p].at,
                   After(cfg, EMPTY, run).log[k])
  {
    hide Earned, After, Before, Origin, LogsEarned;
    var p := Origin(cfg, EMPTY, run, k);
    OriginIs(cfg, EMPTY, run, k);
    StepOfRunEarned(cfg, run, p);
    LastEarned(cfg, Before(cfg, EMPTY, run, p), Before(cfg, EMPTY, run, p + 1), run[p].request, run[p].at,
               After(cfg, EMPTY, run).log, k);
  }

  lemma UsersBefore(cfg: Config, run: seq<Timed>, p: nat)
    requires cfg.Valid() && p <= |run|
    ensures UserInv(Before(cfg, EMPTY, run, p))
  {
    RunKeepsInv(cfg, EMPTY, run[..p]);
    hide After, UserInv;
  }

  lemma LastEarned(cfg: Config, w: World, v: World, r: Request, now: nat, log: seq<Entry>, k: nat)
    requires cfg.Valid() && k < |log| && LogsEarned(cfg, w, v, r, now)
    requires w.log == log[..k] && v.log == log[..k + 1]
    ensures Earned(cfg, w, v, r, now, log[k])
  {
    hide Earned;
  }

  // ---- two factors ----

  /** In any run, a session of a user who needs a second factor when it is issued is the answer to a
      request that showed one: a claimable one-time code, a listed recovery code or a valid passkey
      assertion, together with a temporary token which an earlier request of the run, showing the
      password or an identity, was answered with. The exception is an identity provider reporting a
      second factor of its own. */
  lemma SessionNeedsSecondFactor(cfg: Config, run: seq<Timed>, k: nat)
    requires cfg.Valid()
    requires k < |After(cfg, EMPTY, run).log| && After(cfg, EMPTY, run).log[k].Session?
    ensures var log := After(cfg, EMPTY, run).log;
            var n := log[k].username;
            var p := Origin(cfg, EMPTY, run, k);
            var w, r := Before(cfg, EMPTY, run, p), run[p].request;
            Needs(w, n) && !ShowsIdentity(r, n, true) ==>
              && ShowsSecondFactor(cfg, w, r, run[p].at, n)
              && exists i | 0 <= i < k :: log[i] == FirstFactor(n, r.jti) && ShownFirst(cfg, run, i, n)
  {
    var log := After(cfg, EMPTY, run).log;
    var p := Origin(cfg, EMPTY, run, k);
    EntryEarned(cfg, run, k);
    EarnedBySecondFactor(cfg, Before(cfg, EMPTY, run, p), Before(cfg, EMPTY, run, p + 1), run[p].request, run[p].at, log[k]);
    RunKeepsInv(cfg, EMPTY, run);
    assert Backed(log, k);
    if log[k].via.Some? {
      var i :| 0 <= i < k && log[i] == FirstFactor(log[k].username, log[k].via.value);
      FirstEarned(cfg, run, i);
    }
    hide After, Before, Origin, Inv, Backed, Earned, Needs, ShowsIdentity, ShowsSecondFactor, ShownFirst;
  }

  lemma EarnedBySecondFactor(cfg: Config, w: World, v: World, r: Request, now: nat, e: Entry)
    requires cfg.Valid() && Earned(cfg, w, v, r, now, e) && e.Session?
    ensures Needs(w, e.username) && !ShowsIdentity(r, e.username, true) ==>
              ShowsSecondFactor(cfg, w, r, now, e.username) && e.via == Some(r.jti)
  {
    hide Validates, Totp.Verifies, Spend, HasCode, Compares;
  }

  lemma FirstEarned(cfg: Config, run: seq<Timed>, i: nat)
    requires cfg.Valid() && i < |After(cfg, EMPTY, run).log| && After(cfg, EMPTY, run).log[i].FirstFactor?
    ensures ShownFirst(cfg, run, i, After(cfg, EMPTY, run).log[i].username)
  {
    hide After, Before, Origin, Earned, ShowsPassword, ShowsIdentity;
    var p := Origin(cfg, EMPTY, run, i);
    EntryEarned(cfg, run, i);
    EarnedFirst(cfg, Before(cfg, EMPTY, run, p), Before(cfg, EMPTY, run, p + 1), run[p].request, run[p].at,
                After(cfg, EMPTY, run).log[i]);
  }

  lemma EarnedFirst(cfg: Config, w: World, v: World, r: Request, now: nat, e: Entry)
    requires cfg.Valid() && Earned(cfg, w, v, r, now, e) && e.FirstFactor?
    ensures ShowsPassword(cfg, w, r, now, e.username) || ShowsIdentity(r, e.username, false)
  {
    hide ShowsPassword, ShowsIdentity;
  }

  /** The request behind entry `i` of the run's log showed the user's password or identity. */
  predicate ShownFirst(cfg: Config, run: seq<Timed>, i: nat, n: string)
    requires cfg.Valid() && i < |After(cfg, EMPTY, run).log|
  {
    var p := Origin(cfg, EMPTY, run, i);
    var w, r := Before(cfg, EMPTY, run, p), run[p].request;
    ShowsPassword(cfg, w, r, run[p].at, n) || ShowsIdentity(r, n, false)
  }

  // ---- one code, one session ----

  /** The (secret, counter) pair that a request spends, if it does: the code accepted in its step. */
  function SpentBy(cfg: Config, w: World, r: Request, now: nat): seq<(string, int)>
    requires cfg.Valid()
  {
    Totp.Accepted(cfg.totp, w.used, TotpEvent(cfg, w, r, now))
  }

  lemma CodesCons(cfg: Config, w: World, run: seq<Timed>)
    requires cfg.Valid() && run != []
    ensures var v := Step(cfg, w, run[0].request, run[0].at).0;
            && CodesAccepted(cfg, w, run) == SpentBy(cfg, w, run[0].request, run[0].at) + CodesAccepted(cfg, v, run[1..])
            && After(cfg, w, run) == After(cfg, v, run[1..])
  {
    hide Step, TotpEvent, Totp.Accepted;
  }

  lemma Regroup(x: seq<(string, int)>, y: seq<(string, int)>, z: seq<(string, int)>)
    ensures x + (y + z) == x + y + z
  {
  }

  lemma {:induction false} CodesAppend(cfg: Config, w: World, a: seq<Timed>, b: seq<Timed>)
    requires cfg.Valid()
    ensures CodesAccepted(cfg, w, a + b) == CodesAccepted(cfg, w, a) + CodesAccepted(cfg, After(cfg, w, a), b)
    decreases |a|
  {
    if a == [] {
      assert a + b == b;
    } else {
      hide Step, SpentBy, CodesAccepted, After;
      var r, now := a[0].request, a[0].at;
      var v := Step(cfg, w, r, now).0;
      assert (a + b)[1..] == a[1..] + b && (a + b)[0] == a[0];
      CodesCons(cfg, w, a + b);
      CodesCons(cfg, w, a);
      CodesAppend(cfg, v, a[1..], b);
      Regroup(SpentBy(cfg, w, r, now), CodesAccepted(cfg, v, a[1..]), CodesAccepted(cfg, After(cfg, w, a), b));
    }
  }

  /** What step `p` spends stands in the list of accepted pairs right after what the steps before spent. */
  lemma CodesOfStep(cfg: Config, w: World, run: seq<Timed>, p: nat)
    requires cfg.Valid() && p < |run|
    ensures CodesAccepted(cfg, w, run[..p + 1])
            == CodesAccepted(cfg, w, run[..p]) + SpentBy(cfg, Before(cfg, w, run, p), run[p].request, run[p].at)
    ensures CodesAccepted(cfg, w, run[..p + 1]) <= CodesAccepted(cfg, w, run)
  {
    hide Step, TotpEvent, Totp.Accepted;
    assert run[..p + 1] == run[..p] + [run[p]] && [run[p]][1..] == [];
    CodesAppend(cfg, w, run[..p], [run[p]]);
    assert run == run[..p + 1] + run[p + 1..];
    CodesAppend(cfg, w, run[..p + 1], run[p + 1..]);
  }

  lemma CodesGrow(cfg: Config, w: World, run: seq<Timed>, p: nat, q: nat)
    requires cfg.Valid() && p <= q <= |run|
    ensures CodesAccepted(cfg, w, run[..p]) <= CodesAccepted(cfg, w, run[..q])
  {
    assert run[..q] == run[..p] + run[p..q];
    CodesAppend(cfg, w, run[..p], run[p..q]);
  }

  /** A request that shows a one-time code spends a pair of the user's secret with that code. */
  lemma CodeIsSpent(cfg: Config, w: World, r: Request, now: nat, n: string)
    requires cfg.Valid() && n in w.users && cfg.mfa
    requires ShowsToken(cfg, w, r, now, n) && ShowsCode(cfg, w, r, now, n) && Unix(now) <= w.issued[r.jti].expires
    ensures var spent := SpentBy(cfg, w, r, now);
            |spent| == 1 && Some(spent[0].0) == w.users[n].totp && cfg.totp.hotp(spent[0].0, spent[0].1) == TrimSpace(r.code)
  {
    var secret := w.users[n].totp.value;
    assert TotpEvent(cfg, w, r, now) == [Totp.Verify(secret, r.code, now)];
    AcceptedOne(cfg.totp, w.used, secret, r.code, now);
    hide TotpEvent, Totp.Verifies;
  }

  lemma AcceptedOne(cfg: Totp.Config, used: Totp.Used, secret: string, code: string, now: nat)
    requires cfg.Valid() && Totp.Verifies(cfg, used, secret, code, now)
    ensures var spent := Totp.Accepted(cfg, used, [Totp.Verify(secret, code, now)]);
            |spent| == 1 && spent[0].0 == secret && cfg.hotp(secret, spent[0].1) == TrimSpace(code)
  {
    var e := Totp.Verify(secret, code, now);
    assert [e][1..] == [];
    assert Totp.Accepted(cfg, Totp.Step(cfg, used, e), []) == [];
    assert Totp.Accepted(cfg, used, [e]) == [(secret, Totp.Candidate(cfg, secret, code, now).value)];
  }

  /** Two sessions that were granted for one-time codes spent two different (secret, counter) pairs, in
      any run of all the handlers with the table's sweeps between. */
  lemma CodeSessionsSpendDistinctPairs(cfg: Config, run: seq<Timed>, clock: nat, i: nat, k: nat)
    requires cfg.Valid() && Monotone(run, clock)
    requires cfg.totp.ttl >= (2 * cfg.totp.skew + 1) * cfg.totp.step - 1
    requires i < k < |After(cfg, EMPTY, run).log|
    requires IsCodeSession(After(cfg, EMPTY, run).log[i]) && IsCodeSession(After(cfg, EMPTY, run).log[k])
    ensures var p, q := Origin(cfg, EMPTY, run, i), Origin(cfg, EMPTY, run, k);
            var a := SpentBy(cfg, Before(cfg, EMPTY, run, p), run[p].request, run[p].at);
            var b := SpentBy(cfg, Before(cfg, EMPTY, run, q), run[q].request, run[q].at);
            |a| == |b| == 1 && a[0] != b[0]
  {
    var p, q := Origin(cfg, EMPTY, run, i), Origin(cfg, EMPTY, run, k);
    CodeSessionSpends(cfg, run, i);
    CodeSessionSpends(cfg, run, k);
    OriginsInOrder(cfg, EMPTY, run, i, k);
    CodesSingleUse(cfg, run, clock);
    hide After, Before, Origin, Monotone, SpentBy, CodesAccepted;
    CodesOfStep(cfg, EMPTY, run, p);
    CodesOfStep(cfg, EMPTY, run, q);
    CodesGrow(cfg, EMPTY, run, p + 1, q);
    var all, x, y := CodesAccepted(cfg, EMPTY, run), |CodesAccepted(cfg, EMPTY, run[..p])|, |CodesAccepted(cfg, EMPTY, run[..q])|;
    var a := SpentBy(cfg, Before(cfg, EMPTY, run, p), run[p].request, run[p].at);
    var b := SpentBy(cfg, Before(cfg, EMPTY, run, q), run[q].request, run[q].at);
    assert all[x] == CodesAccepted(cfg, EMPTY, run[..p + 1])[x] == a[0];
    assert all[y] == CodesAccepted(cfg, EMPTY, run[..q + 1])[y] == b[0];
    assert x < y;
  }

  predicate IsCodeSession(e: Entry) {
    e.Session? && e.factor.TotpCode?
  }

  /** A session granted for a one-time code spent a pair of the user's secret, whose code was shown. */
  lemma CodeSessionSpends(cfg: Config, run: seq<Timed>, k: nat)
    requires cfg.Valid()
    requires k < |After(cfg, EMPTY, run).log| && IsCodeSession(After(cfg, EMPTY, run).log[k])
    ensures var p := Origin(cfg, EMPTY, run, k);
            var w, r, n := Before(cfg, EMPTY, run, p), run[p].request, After(cfg, EMPTY, run).log[k].username;
            var spent := SpentBy(cfg, w, r, run[p].at);
            && |spent| == 1 && r.VerifyMfa? && n in w.users
            && Some(spent[0].0) == w.users[n].totp && cfg.totp.hotp(spent[0].0, spent[0].1) == TrimSpace(r.code)
  {
    hide After, Before, Origin, Earned, Step, SpentBy, ShowsToken, ShowsCode;
    var p := Origin(cfg, EMPTY, run, k);
    var w, v, r, now := Before(cfg, EMPTY, run, p), Before(cfg, EMPTY, run, p + 1), run[p].request, run[p].at;
    EntryEarned(cfg, run, k);
    OriginIs(cfg, EMPTY, run, k);
    BeforeNext(cfg, EMPTY, run, p);
    assert |v.log| == |w.log| + 1 && v.log[|w.log|] == After(cfg, EMPTY, run).log[k];
    CodeStepSpends(cfg, w, r, now, After(cfg, EMPTY, run).log[k]);
  }

  lemma CodeStepSpends(cfg: Config, w: World, r: Request, now: nat, e: Entry)
    requires cfg.Valid() && IsCodeSession(e)
    requires var v := Step(cfg, w, r, now).0;
             |v.log| == |w.log| + 1 && v.log[|w.log|] == e && Earned(cfg, w, v, r, now, e)
    ensures var n, spent := e.username, SpentBy(cfg, w, r, now);
            && |spent| == 1 && r.VerifyMfa? && n in w.users
            && Some(spent[0].0) == w.users[n].totp && cfg.totp.hotp(spent[0].0, spent[0].1) == TrimSpace(r.code)
  {
    EarnedByCode(cfg, w, r, now, e);
    hide Step, Earned, SpentBy, ShowsCode;
    CodeIsSpent(cfg, w, r, now, e.username);
  }

  lemma EarnedByCode(cfg: Config, w: World, r: Request, now: nat, e: Entry)
    requires cfg.Valid() && IsCodeSession(e)
    requires var v := Step(cfg, w, r, now).0;
             |v.log| == |w.log| + 1 && v.log[|w.log|] == e && Earned(cfg, w, v, r, now, e)
    ensures ShowsToken(cfg, w, r, now, e.username) && ShowsCode(cfg, w, r, now, e.username)
    ensures cfg.mfa && r.VerifyMfa? && Unix(now) <= w.issued[r.jti].expires
  {
    hide Totp.Verifies, Totp.AfterVerify, Totp.Sweep, Spend, RecordFailure;
  }

  // ---- recovery codes ----

  /** How often a code stands in the user's list of recovery codes. */
  function Copies(w: World, n: string, code: string): nat {
    if n in w.users && w.users[n].recovery.Some? then multiset(w.users[n].recovery.value)[code] else 0
  }

  /** Whether the step grants a session of the user's for this recovery code. */
  predicate GrantsForRecovery(cfg: Config, w: World, r: Request, now: nat, n: string, code: string)
    requires cfg.Valid()
  {
    var v := Step(cfg, w, r, now).0;
    r.VerifyMfa? && r.code == code && |v.log| == |w.log| + 1 && IsRecoverySession(v.log[|w.log|], n)
  }

  predicate IsRecoverySession(e: Entry, n: string) {
    e.Session? && e.factor.RecoveryCode? && e.username == n
  }

  function RecoverySessions(cfg: Config, w: World, run: seq<Timed>, n: string, code: string): nat
    requires cfg.Valid()
    decreases |run|
  {
    if run == [] then 0
    else (if GrantsForRecovery(cfg, w, run[0].request, run[0].at, n, code) then 1 else 0)
         + RecoverySessions(cfg, Step(cfg, w, run[0].request, run[0].at).0, run[1..], n, code)
  }

  /** No enrolment of the user's is confirmed. */
  predicate NoEnrolment(run: seq<Timed>, n: string) {
    forall e | e in run :: !(e.request.ConfirmMfa? && e.request.username == n)
  }

  lemma WithoutOne(codes: seq<string>, i: nat)
    requires i < |codes|
    ensures multiset(codes) == multiset(codes[..i] + codes[i + 1..]) + multiset{codes[i]}
  {
    assert codes == codes[..i] + ([codes[i]] + codes[i + 1..]);
  }

  lemma SpendCopies(codes: seq<string>, code: string)
    requires code in codes
    ensures var left := Spend(codes, code);
            multiset(codes) == (if left.Some? then multiset(left.value) else multiset{}) + multiset{code}
  {
    var i := IndexOf(codes, code);
    WithoutOne(codes, i);
    hide IndexOf;
    if codes[..i] + codes[i + 1..] == [] {
      assert multiset(codes[..i] + codes[i + 1..]) == multiset{};
    }
  }

  /** What a step does to the recovery codes of one user: nothing, dropping them, or spending one. */
  predicate RecoveryMoves(w: World, v: World, r: Request, n: string) {
    if n !in w.users then n in v.users ==> v.users[n].recovery.None?
    else
      n in v.users
      && (v.users[n].recovery == w.users[n].recovery || v.users[n].recovery.None?
          || SpendsCode(w.users[n], v.users[n], r))
  }

  /** The row loses the copy of the code that the request shows. */
  predicate SpendsCode(u: User, v: User, r: Request) {
    r.VerifyMfa? && HasCode(u.recovery, r.code) && v.recovery == Spend(u.recovery.value, r.code)
  }

  lemma RowRecovery(w: World, v: World, r: Request, n: string, k: string)
    requires k in w.users && k in v.users && v.users == w.users[k := v.users[k]]
    requires k == n ==> v.users[k].recovery == w.users[k].recovery || v.users[k].recovery.None?
                        || SpendsCode(w.users[k], v.users[k], r)
    ensures RecoveryMoves(w, v, r, n)
  {
    hide SpendsCode;
  }

  lemma FailureKeepsRecovery(cfg: Config, u: User, now: int)
    ensures RecordFailure(cfg, u, now).recovery == u.recovery
  {
  }

  lemma AcceptedRecovery(cfg: Config, w: World, r: Request, now: nat)
    requires cfg.Valid() && r.VerifyMfa? && VerifyMfaStep(cfg, w, r, now).1.Token?
    ensures var v := VerifyMfaStep(cfg, w, r, now).0;
            && r.jti in w.issued
            && var k := w.issued[r.jti].username;
               k in w.users && k in v.users && v.users == w.users[k := v.users[k]]
               && (v.users[k].recovery == w.users[k].recovery || SpendsCode(w.users[k], v.users[k], r))
  {
    hide Locks, Totp.Verifies, Totp.AfterVerify, Spend, HasCode, RecordFailure;
  }

  lemma VerifyMfaRecovery(cfg: Config, w: World, r: Request, now: nat, n: string)
    requires cfg.Valid() && r.VerifyMfa?
    ensures RecoveryMoves(w, VerifyMfaStep(cfg, w, r, now).0, r, n)
  {
    var v := VerifyMfaStep(cfg, w, r, now).0;
    hide Locks, Totp.Verifies, Totp.AfterVerify, Spend, HasCode, RecordFailure, RecoveryMoves;
    if VerifyMfaStep(cfg, w, r, now).1.Token? {
      AcceptedRecovery(cfg, w, r, now);
      RowRecovery(w, v, r, n, w.issued[r.jti].username);
    } else if v.users == w.users {
      SameRecovery(w, v, r, n);
    } else {
      var k := w.issued[r.jti].username;
      FailureKeepsRecovery(cfg, w.users[k], now);
      RowRecovery(w, v, r, n, k);
    }
  }

  lemma SameRecovery(w: World, v: World, r: Request, n: string)
    requires v.users == w.users
    ensures RecoveryMoves(w, v, r, n)
  {
  }

  lemma LoginRecovery(cfg: Config, w: World, r: Request, now: nat, n: string)
    requires r.Login?
    ensures RecoveryMoves(w, LoginStep(cfg, w, r.username, r.password, r.recordOk, now).0, r, n)
  {
    hide Locks, SpendsCode, RecoveryMoves, RecordFailure;
    var v := LoginStep(cfg, w, r.username, r.password, r.recordOk, now).0;
    if v.users == w.users {
      SameRecovery(w, v, r, n);
    } else {
      FailureKeepsRecovery(cfg, w.users[r.username], now);
      RowRecovery(w, v, r, n, r.username);
    }
  }

  lemma SsoLoginRecovery(cfg: Config, w: World, r: Request, now: nat, n: string)
    requires r.SsoLogin?
    ensures RecoveryMoves(w, SsoLoginStep(cfg, w, r.username, r.id, r.amrMfa, now).0, r, n)
  {
    hide SpendsCode, RecoveryMoves;
    var v := SsoLoginStep(cfg, w, r.username, r.id, r.amrMfa, now).0;
    if v.users == w.users {
      SameRecovery(w, v, r, n);
    } else if r.username in w.users {
      RowRecovery(w, v, r, n, r.username);
    } else {
      NewRecovery(w, v, r, n, r.username, r.id);
    }
  }

  lemma OtherRecovery(cfg: Config, w: World, r: Request, now: nat, n: string)
    requires cfg.Valid() && !r.VerifyMfa? && !(r.ConfirmMfa? && r.username == n)
    ensures RecoveryMoves(w, Step(cfg, w, r, now).0, r, n)
  {
    hide VerifyMfaStep, LoginStep, SsoLoginStep, RecoveryMoves, SpendsCode;
    hide Totp.Verifies, Totp.AfterVerify, Totp.Sweep, Validates;
    var v := Step(cfg, w, r, now).0;
    if r.Login? {
      LoginRecovery(cfg, w, r, now, n);
    } else if r.SsoLogin? {
      SsoLoginRecovery(cfg, w, r, now, n);
    } else if v.users == w.users {
      SameRecovery(w, v, r, n);
    } else {
      RowRecovery(w, v, r, n, r.username);
    }
  }

  lemma NewRecovery(w: World, v: World, r: Request, n: string, k: string, id: string)
    requires k !in w.users && v.users == w.users[k := FreshUser(id)]
    ensures RecoveryMoves(w, v, r, n)
  {
    hide SpendsCode;
  }

  lemma GrantSpendsCode(cfg: Config, w: World, r: Request, now: nat, n: string, code: string)
    requires cfg.Valid() && UserInv(w) && GrantsForRecovery(cfg, w, r, now, n, code)
    ensures var v := Step(cfg, w, r, now).0;
            n in w.users && n in v.users && SpendsCode(w.users[n], v.users[n], r) && r.code == code
  {
    StepEarned(cfg, w, r, now);
    hide Step, UserInv, Spend, HasCode, Validates;
  }

  lemma StepSpendsCopy(cfg: Config, w: World, r: Request, now: nat, n: string, code: string)
    requires cfg.Valid() && UserInv(w) && !(r.ConfirmMfa? && r.username == n)
    ensures Copies(Step(cfg, w, r, now).0, n, code) + (if GrantsForRecovery(cfg, w, r, now, n, code) then 1 else 0)
            <= Copies(w, n, code)
  {
    if r.VerifyMfa? {
      VerifyMfaRecovery(cfg, w, r, now, n);
    } else {
      OtherRecovery(cfg, w, r, now, n);
    }
    if GrantsForRecovery(cfg, w, r, now, n, code) {
      GrantSpendsCode(cfg, w, r, now, n, code);
    }
    hide Step, UserInv, Spend, GrantsForRecovery;
    if n in w.users && r.VerifyMfa? && HasCode(w.users[n].recovery, r.code) {
      SpendCopies(w.users[n].recovery.value, r.code);
    }
  }

  /** However a run went before, in a stretch without a confirmed enrolment of the user's, the sessions
      granted for one recovery code and the copies of it still listed are together no more than the
      copies listed at the start. */
  lemma {:induction false} RecoveryCodesConserved(cfg: Config, w: World, run: seq<Timed>, n: string, code: string)
    requires cfg.Valid() && Inv(cfg, w) && NoEnrolment(run, n)
    ensures RecoverySessions(cfg, w, run, n, code) + Copies(After(cfg, w, run), n, code) <= Copies(w, n, code)
    decreases |run|
  {
    if run != [] {
      var r, now := run[0].request, run[0].at;
      assert run[0] in run && forall e | e in run[1..] :: e in run;
      StepSpendsCopy(cfg, w, r, now, n, code);
      StepKeepsInv(cfg, w, r, now);
      hide Step, Inv, Copies, GrantsForRecovery;
      RecoveryCodesConserved(cfg, Step(cfg, w, r, now).0, run[1..], n, code);
    }
  }

  /** So with distinct codes none of them backs two sessions before the next enrolment. */
  lemma RecoveryCodesSingleUse(cfg: Config, before: seq<Timed>, run: seq<Timed>, n: string, code: string)
    requires cfg.Valid() && NoEnrolment(run, n)
    requires var w := After(cfg, EMPTY, before);
             n in w.users && w.users[n].recovery.Some? ==> Totp.Distinct(w.users[n].recovery.value)
    ensures RecoverySessions(cfg, After(cfg, EMPTY, before), run, n, code) <= 1
  {
    var w := After(cfg, EMPTY, before);
    RunKeepsInv(cfg, EMPTY, before);
    hide Inv, After, RecoverySessions;
    RecoveryCodesConserved(cfg, w, run, n, code);
    if n in w.users && w.users[n].recovery.Some? {
      DistinctCopies(w.users[n].recovery.value, code);
    }
  }

  lemma {:induction false} DistinctCopies(codes: seq<string>, code: string)
    requires Totp.Distinct(codes)
    ensures multiset(codes)[code] <= 1
    decreases |codes|
  {
    if codes != [] {
      var n := |codes| - 1;
      assert codes == codes[..n] + [codes[n]];
      DistinctCopies(codes[..n], code);
      if codes[n] == code {
        assert forall j | 0 <= j < n :: codes[..n][j] == codes[j] != code;
        assert code !in codes[..n];
      }
    }
  }
}
