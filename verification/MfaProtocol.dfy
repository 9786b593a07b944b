/** What sessions and temporary tokens guarantee over whole runs of the handlers in module Auth. */
module MfaProtocol {
  import opened Base
  import opened Auth
  import Totp

  predicate SecondFactor(f: Factor) {
    f.TotpCode? || f.RecoveryCode? || f.Passkey?
  }

  /** What every session entry at position `k` of the log has behind it: a second factor goes with a
      temporary token that an earlier first factor of the same user was answered with; without one,
      the user needed no second factor or the identity provider vouched for it. */
  predicate Backed(log: seq<Entry>, k: nat)
    requires k < |log|
  {
    log[k].Session? ==>
      if log[k].via.Some?
      then SecondFactor(log[k].factor)
           && exists i | 0 <= i < k :: log[i] == FirstFactor(log[k].username, log[k].via.value)
      else (log[k].factor.Password? || log[k].factor.Idp?)
           && (log[k].required ==> log[k].factor == Idp(true))
  }

  predicate Consumes(e: Entry, jti: nat) {
    e.Session? && e.via == Some(jti)
  }

  ghost predicate UserInv(w: World) {
    && (forall m, n | m in w.users && n in w.users :: w.users[m].id == w.users[n].id ==> m == n)
    && (forall j | j in w.issued ::
          j < w.nextJti && w.issued[j].username in w.users && w.users[w.issued[j].username].id == w.issued[j].userId)
  }

  ghost predicate LogInv(w: World) {
    && (forall k | 0 <= k < |w.log| :: Backed(w.log, k))
    && (forall k | 0 <= k < |w.log| ::
          w.log[k].jti in w.issued && w.issued[w.log[k].jti].mfa == w.log[k].FirstFactor?)
    && (forall j | j in w.issued ::
          if w.issued[j].mfa then FirstFactor(w.issued[j].username, j) in w.log
          else exists k | 0 <= k < |w.log| :: IsSession(w.log[k], w.issued[j].username, j))
  }

  predicate IsSession(e: Entry, username: string, jti: nat) {
    e.Session? && e.username == username && e.jti == jti
  }

  /** Tokens whose consumption was written to the blacklist are on it, and no later session consumed
      one whose presence there was read. */
  ghost predicate BlacklistInv(cfg: Config, w: World) {
    && (forall k | 0 <= k < |w.log| && w.log[k].Session? && w.log[k].via.Some? ::
          cfg.revokeAdd && w.log[k].writeOk ==> w.log[k].via.value in w.blacklist)
    && (forall i, k, j: nat | 0 <= i < k < |w.log| && Consumes(w.log[i], j) && Consumes(w.log[k], j) ::
          !(cfg.revokeAdd && cfg.revokedCheck && w.log[i].writeOk && w.log[k].readOk))
  }

  ghost predicate Inv(cfg: Config, w: World) {
    UserInv(w) && LogInv(w) && BlacklistInv(cfg, w)
  }

  /** The world differs at most in user fields other than ids, in used counters and in further
      blacklist entries. */
  ghost predicate Edited(w: World, v: World) {
    && v.issued == w.issued && v.nextJti == w.nextJti && v.log == w.log && w.blacklist <= v.blacklist
    && (forall n | n in w.users :: n in v.users && v.users[n].id == w.users[n].id)
    && (forall m, n | m in v.users && n in v.users :: v.users[m].id == v.users[n].id ==> m == n)
  }

  lemma EditKeepsInv(cfg: Config, w: World, v: World)
    requires Inv(cfg, w) && Edited(w, v)
    ensures Inv(cfg, v)
  {
  }

  lemma BackedGrows(log: seq<Entry>, e: Entry, k: nat)
    requires k < |log| && Backed(log, k)
    ensures Backed(log + [e], k)
  {
    if log[k].Session? && log[k].via.Some? {
      var i :| 0 <= i < k && log[i] == FirstFactor(log[k].username, log[k].via.value);
      assert (log + [e])[i] == log[i];
    }
  }

  lemma ChallengeKeepsInv(cfg: Config, w: World, n: string, u: User, now: nat)
    requires Inv(cfg, w) && n in w.users && w.users[n].id == u.id
    ensures Inv(cfg, Challenge(cfg, w, n, u, now))
  {
    ChallengeKeepsLogInv(cfg, w, n, u, now);
    ChallengeKeepsBlacklistInv(cfg, w, n, u, now);
    hide LogInv, BlacklistInv;
  }

  lemma ChallengeKeepsBlacklistInv(cfg: Config, w: World, n: string, u: User, now: nat)
    requires BlacklistInv(cfg, w)
    ensures BlacklistInv(cfg, Challenge(cfg, w, n, u, now))
  {
    var v := Challenge(cfg, w, n, u, now);
    assert forall k | 0 <= k < |w.log| :: v.log[k] == w.log[k];
  }

  lemma ChallengeKeepsLogInv(cfg: Config, w: World, n: string, u: User, now: nat)
    requires UserInv(w) && LogInv(w)
    ensures LogInv(Challenge(cfg, w, n, u, now))
  {
    var v := Challenge(cfg, w, n, u, now);
    forall k | 0 <= k < |w.log|
      ensures Backed(v.log, k)
    {
      BackedGrows(w.log, v.log[|w.log|], k);
    }
    LogGrows(w, v);
  }

  /** Entries found in the old log are found in the new one. */
  lemma LogGrows(w: World, v: World)
    requires LogInv(w) && |v.log| == |w.log| + 1 && v.log[..|w.log|] == w.log
    requires forall j | j in w.issued :: j in v.issued && v.issued[j] == w.issued[j]
    ensures forall j | j in w.issued ::
              if w.issued[j].mfa then FirstFactor(w.issued[j].username, j) in v.log
              else exists k | 0 <= k < |v.log| :: IsSession(v.log[k], w.issued[j].username, j)
  {
    assert forall k | 0 <= k < |w.log| :: v.log[k] == v.log[..|w.log|][k] == w.log[k];
    forall j | j in w.issued
      ensures if w.issued[j].mfa then FirstFactor(w.issued[j].username, j) in v.log
              else exists k | 0 <= k < |v.log| :: IsSession(v.log[k], w.issued[j].username, j)
    {
      if w.issued[j].mfa {
        var k :| 0 <= k < |w.log| && w.log[k] == FirstFactor(w.issued[j].username, j);
        assert v.log[k] == w.log[k];
      } else {
        var k :| 0 <= k < |w.log| && IsSession(w.log[k], w.issued[j].username, j);
        assert v.log[k] == w.log[k];
      }
    }
  }

  /** When a session may be granted. */
  ghost predicate MayGrant(cfg: Config, w: World, n: string, u: User, factor: Factor, via: Option<nat>, readOk: bool) {
    && n in w.users && w.users[n].id == u.id
    && (via.Some? ==>
          && via.value in w.issued && w.issued[via.value].mfa && w.issued[via.value].username == n
          && SecondFactor(factor) && !(cfg.revokedCheck && readOk && via.value in w.blacklist))
    && (via.None? ==> (factor.Password? || factor.Idp?) && (u.MfaRequired() ==> factor == Idp(true)))
  }

  lemma GrantKeepsLogInv(cfg: Config, w: World, n: string, u: User, now: nat, factor: Factor,
                         via: Option<nat>, readOk: bool, writeOk: bool)
    requires Inv(cfg, w) && MayGrant(cfg, w, n, u, factor, via, readOk)
    ensures LogInv(Grant(cfg, w, n, u, now, factor, via, readOk, writeOk))
  {
    var v := Grant(cfg, w, n, u, now, factor, via, readOk, writeOk);
    var e := v.log[|w.log|];
    forall k | 0 <= k < |w.log|
      ensures Backed(v.log, k)
    {
      BackedGrows(w.log, e, k);
    }
    if via.Some? {
      var i :| 0 <= i < |w.log| && w.log[i] == FirstFactor(n, via.value);
      assert v.log[i] == FirstFactor(n, via.value);
    }
    assert Backed(v.log, |w.log|);
    LogGrows(w, v);
    assert IsSession(v.log[|w.log|], n, w.nextJti);
  }

  lemma GrantKeepsInv(cfg: Config, w: World, n: string, u: User, now: nat, factor: Factor,
                      via: Option<nat>, readOk: bool, writeOk: bool)
    requires Inv(cfg, w) && MayGrant(cfg, w, n, u, factor, via, readOk)
    ensures Inv(cfg, Grant(cfg, w, n, u, now, factor, via, readOk, writeOk))
  {
    GrantKeepsLogInv(cfg, w, n, u, now, factor, via, readOk, writeOk);
    GrantKeepsBlacklistInv(cfg, w, n, u, now, factor, via, readOk, writeOk);
    hide LogInv, BlacklistInv;
  }

  lemma GrantKeepsBlacklistInv(cfg: Config, w: World, n: string, u: User, now: nat, factor: Factor,
                               via: Option<nat>, readOk: bool, writeOk: bool)
    requires BlacklistInv(cfg, w)
    requires via.Some? ==> !(cfg.revokedCheck && readOk && via.value in w.blacklist)
    ensures BlacklistInv(cfg, Grant(cfg, w, n, u, now, factor, via, readOk, writeOk))
  {
    var v := Grant(cfg, w, n, u, now, factor, via, readOk, writeOk);
    assert forall k | 0 <= k < |w.log| :: v.log[k] == w.log[k];
  }

  // ---- the handlers keep the invariant ----

  lemma LoginKeepsInv(cfg: Config, w: World, n: string, password: string, ok: bool, now: nat)
    requires Inv(cfg, w)
    ensures Inv(cfg, LoginStep(cfg, w, n, password, ok, now).0)
  {
    hide Inv;
    if n in w.users {
      var u := w.users[n];
      var v := if cfg.maxFails > 0 && ok then Update(w, n, ClearFailures(u)) else w;
      var f := Recorded(cfg, w, n, ok, now);
      UpdateEdits(cfg, w, n, ClearFailures(u));
      UpdateEdits(cfg, w, n, RecordFailure(cfg, u, now));
      if u.MfaRequired() || (cfg.passkey && u.passkeyEnabled) {
        ChallengeKeepsInv(cfg, v, n, u, now);
      } else {
        GrantKeepsInv(cfg, v, n, u, now, Password, None, true, true);
      }
    }
  }

  lemma UpdateEdits(cfg: Config, w: World, n: string, u: User)
    requires Inv(cfg, w) && n in w.users && u.id == w.users[n].id
    ensures Inv(cfg, Update(w, n, u))
  {
    EditKeepsInv(cfg, w, Update(w, n, u));
  }

  lemma UsedEdits(cfg: Config, w: World, used: Totp.Used)
    requires Inv(cfg, w)
    ensures Inv(cfg, w.(used := used))
  {
    EditKeepsInv(cfg, w, w.(used := used));
  }

  lemma VerifyMfaKeepsInv(cfg: Config, w: World, r: Request, now: nat)
    requires cfg.Valid() && r.VerifyMfa? && Inv(cfg, w)
    ensures Inv(cfg, VerifyMfaStep(cfg, w, r, now).0)
  {
    if cfg.mfa && Validates(cfg, w, r.jti, r.readOk, now) && w.issued[r.jti].mfa {
      var n := w.issued[r.jti].username;
      var u := w.users[n];
      var used := if u.totp.Some? then Totp.AfterVerify(cfg.totp, w.used, u.totp.value, r.code, now) else w.used;
      CodeOutcomesKeepInv(cfg, w, w.(used := used), n, u, r, now);
      hide Inv, Grant, RecordFailure, Spend;
    }
  }

  lemma CodeOutcomesKeepInv(cfg: Config, w: World, v: World, n: string, u: User, r: Request, now: nat)
    requires r.VerifyMfa? && Inv(cfg, w) && v == w.(used := v.used)
    requires Validates(cfg, w, r.jti, r.readOk, now) && w.issued[r.jti].mfa && w.issued[r.jti].username == n
    requires n in w.users && u == w.users[n]
    ensures Inv(cfg, v) && Inv(cfg, Update(v, n, RecordFailure(cfg, u, now)))
    ensures Inv(cfg, Grant(cfg, v, n, u, now, TotpCode, Some(r.jti), r.readOk, r.writeOk))
    ensures HasCode(u.recovery, r.code) ==>
              Inv(cfg, Grant(cfg, Update(v, n, u.(recovery := Spend(u.recovery.value, r.code))), n, u, now,
                             RecoveryCode, Some(r.jti), r.readOk, r.writeOk))
  {
    hide Inv, Grant, RecordFailure, Spend;
    UsedEdits(cfg, w, v.used);
    assert RecordFailure(cfg, u, now).id == u.id by {
      FailureKeepsId(cfg, u, now);
    }
    UpdateEdits(cfg, v, n, RecordFailure(cfg, u, now));
    GrantKeepsInv(cfg, v, n, u, now, TotpCode, Some(r.jti), r.readOk, r.writeOk);
    if HasCode(u.recovery, r.code) {
      var spent := u.(recovery := Spend(u.recovery.value, r.code));
      UpdateEdits(cfg, v, n, spent);
      GrantKeepsInv(cfg, Update(v, n, spent), n, u, now, RecoveryCode, Some(r.jti), r.readOk, r.writeOk);
    }
  }

  lemma FailureKeepsId(cfg: Config, u: User, now: int)
    ensures RecordFailure(cfg, u, now).id == u.id
  {
  }

  lemma VerifyPasskeyKeepsInv(cfg: Config, w: World, r: Request, now: nat)
    requires r.VerifyPasskey? && Inv(cfg, w)
    ensures Inv(cfg, VerifyPasskeyStep(cfg, w, r, now).0)
  {
    if Validates(cfg, w, r.jti, r.readOk, now) && w.issued[r.jti].mfa
       && r.row in w.users && w.users[r.row].id == w.issued[r.jti].userId {
      assert r.row == w.issued[r.jti].username;
      hide Inv;
      GrantKeepsInv(cfg, w, r.row, w.users[r.row], now, Passkey, Some(r.jti), r.readOk, r.writeOk);
    }
  }

  lemma EnrolKeepsInv(cfg: Config, w: World, n: string, u: User)
    requires Inv(cfg, w)
    requires if n in w.users then u.id == w.users[n].id else !exists k :: k in w.users && w.users[k].id == u.id
    ensures Inv(cfg, Update(w, n, u))
  {
    assert Edited(w, Update(w, n, u)) by {
      hide LogInv, BlacklistInv;
    }
    EditKeepsInv(cfg, w, Update(w, n, u));
  }

  lemma SsoLoginKeepsInv(cfg: Config, w: World, n: string, id: string, amrMfa: bool, now: nat)
    requires Inv(cfg, w)
    ensures Inv(cfg, SsoLoginStep(cfg, w, n, id, amrMfa, now).0)
  {
    if n != "" && (n in w.users || !exists k :: k in w.users && w.users[k].id == id) {
      var u := if n in w.users then w.users[n].(enabled := true) else FreshUser(id);
      var v := Update(w, n, u);
      EnrolKeepsInv(cfg, w, n, u);
      hide Inv, Challenge, Grant;
      if !amrMfa && u.MfaRequired() {
        ChallengeKeepsInv(cfg, v, n, u, now);
      } else {
        GrantKeepsInv(cfg, v, n, u, now, Idp(amrMfa), None, true, true);
      }
    }
  }

  lemma StepKeepsInv(cfg: Config, w: World, r: Request, now: nat)
    requires cfg.Valid() && Inv(cfg, w)
    ensures Inv(cfg, Step(cfg, w, r, now).0)
  {
    var v := Step(cfg, w, r, now).0;
    match r {
      case Login(n, p, ok) => LoginKeepsInv(cfg, w, n, p, ok, now);
      case VerifyMfa(_, _, _, _, _, _) => VerifyMfaKeepsInv(cfg, w, r, now);
      case VerifyPasskey(_, _, _, _, _) => VerifyPasskeyKeepsInv(cfg, w, r, now);
      case SsoLogin(n, id, amr) => SsoLoginKeepsInv(cfg, w, n, id, amr, now);
      case _ =>
        OtherEdits(cfg, w, r, now);
        EditKeepsInv(cfg, w, v);
    }
  }

  lemma OtherEdits(cfg: Config, w: World, r: Request, now: nat)
    requires cfg.Valid() && UserInv(w)
    requires !r.Login? && !r.VerifyMfa? && !r.VerifyPasskey? && !r.SsoLogin?
    ensures Edited(w, Step(cfg, w, r, now).0)
  {
    hide Totp.AfterVerify, Totp.Verifies, Totp.Sweep, LoginStep, VerifyMfaStep, VerifyPasskeyStep, SsoLoginStep;
    hide Edited, UserInv;
    var v := Step(cfg, w, r, now).0;
    if v.users != w.users {
      UpdateIsEdit(w, v, r.username);
    } else {
      SameUsersEdit(w, v);
    }
  }

  lemma UpdateIsEdit(w: World, v: World, n: string)
    requires UserInv(w) && n in w.users && n in v.users && v.users[n].id == w.users[n].id
    requires v.users == w.users[n := v.users[n]]
    requires v.issued == w.issued && v.nextJti == w.nextJti && v.log == w.log && w.blacklist <= v.blacklist
    ensures Edited(w, v)
  {
  }

  lemma SameUsersEdit(w: World, v: World)
    requires UserInv(w) && v.users == w.users
    requires v.issued == w.issued && v.nextJti == w.nextJti && v.log == w.log && w.blacklist <= v.blacklist
    ensures Edited(w, v)
  {
  }

  lemma {:induction false} RunKeepsInv(cfg: Config, w: World, run: seq<Timed>)
    requires cfg.Valid() && Inv(cfg, w)
    ensures Inv(cfg, After(cfg, w, run))
    decreases |run|
  {
    if run != [] {
      StepKeepsInv(cfg, w, run[0].request, run[0].at);
      RunKeepsInv(cfg, Step(cfg, w, run[0].request, run[0].at).0, run[1..]);
    }
  }

  // ---- what this means ----

  /** The middleware admits only tokens of logged sessions, never a temporary one. */
  lemma AdmittedHasSession(cfg: Config, run: seq<Timed>, jti: nat, readOk: bool, now: nat)
    requires cfg.Valid() && Admits(cfg, After(cfg, EMPTY, run), jti, readOk, now)
    ensures var w := After(cfg, EMPTY, run);
            && FirstFactor(w.issued[jti].username, jti) !in w.log
            && exists k | 0 <= k < |w.log| :: IsSession(w.log[k], w.issued[jti].username, jti)
  {
    RunKeepsInv(cfg, EMPTY, run);
  }

  // ---- one-time codes across the protocol ----

  /** What a step does to the used-counter table: the verification of a one-time code, or a sweep. */
  function TotpEvent(cfg: Config, w: World, r: Request, now: nat): seq<Totp.Event> {
    match r
    case VerifyMfa(jti, code, readOk, _, _, _) =>
      if cfg.mfa && Validates(cfg, w, jti, readOk, now) && w.issued[jti].mfa && Unix(now) <= w.issued[jti].expires
         && w.issued[jti].username in w.users && w.users[w.issued[jti].username].totp.Some?
      then [Totp.Verify(w.users[w.issued[jti].username].totp.value, code, now)] else []
    case ConfirmMfa(n, code, _) =>
      if cfg.mfa && n in w.users && w.users[n].pendingTotp.Some?
      then [Totp.Verify(w.users[n].pendingTotp.value, code, now)] else []
    case SweepUsed(seen) => [Totp.SweepAt(seen, now)]
    case _ => []
  }

  function TotpEvents(cfg: Config, w: World, run: seq<Timed>): seq<Totp.Event>
    requires cfg.Valid()
    decreases |run|
  {
    if run == [] then []
    else TotpEvent(cfg, w, run[0].request, run[0].at)
         + TotpEvents(cfg, Step(cfg, w, run[0].request, run[0].at).0, run[1..])
  }

  /** The (secret, counter) pairs that enrolments and second factors accept in a run, in order. */
  function CodesAccepted(cfg: Config, w: World, run: seq<Timed>): seq<(string, int)>
    requires cfg.Valid()
    decreases |run|
  {
    if run == [] then []
    else Totp.Accepted(cfg.totp, w.used, TotpEvent(cfg, w, run[0].request, run[0].at))
         + CodesAccepted(cfg, Step(cfg, w, run[0].request, run[0].at).0, run[1..])
  }

  /** The used-counter table moves as the step's event says. */
  predicate UsesTotp(cfg: Config, w: World, v: World, es: seq<Totp.Event>)
    requires cfg.Valid()
  {
    |es| <= 1 && v.used == (if es == [] then w.used else Totp.Step(cfg.totp, w.used, es[0]))
  }

  lemma VerifyMfaUsesTotp(cfg: Config, w: World, r: Request, now: nat)
    requires cfg.Valid() && r.VerifyMfa?
    ensures UsesTotp(cfg, w, VerifyMfaStep(cfg, w, r, now).0, TotpEvent(cfg, w, r, now))
  {
    hide Totp.AfterVerify, Totp.Verifies, Spend, HasCode, RecordFailure, Locks;
  }

  lemma LoginUsesNoTotp(cfg: Config, w: World, r: Request, now: nat)
    requires cfg.Valid() && r.Login?
    ensures UsesTotp(cfg, w, LoginStep(cfg, w, r.username, r.password, r.recordOk, now).0, TotpEvent(cfg, w, r, now))
  {
    hide RecordFailure, Locks;
  }

  lemma StepUsesTotp(cfg: Config, w: World, r: Request, now: nat)
    requires cfg.Valid()
    ensures UsesTotp(cfg, w, Step(cfg, w, r, now).0, TotpEvent(cfg, w, r, now))
  {
    hide VerifyMfaStep, LoginStep, Totp.AfterVerify, Totp.Verifies, Totp.Sweep, Validates;
    if r.VerifyMfa? {
      VerifyMfaUsesTotp(cfg, w, r, now);
    } else if r.Login? {
      LoginUsesNoTotp(cfg, w, r, now);
    }
  }

  lemma {:induction false} TraceIsTotpRun(cfg: Config, w: World, run: seq<Timed>, clock: nat)
    requires cfg.Valid() && Monotone(run, clock)
    ensures Totp.Timed(TotpEvents(cfg, w, run), clock)
    ensures CodesAccepted(cfg, w, run) == Totp.Accepted(cfg.totp, w.used, TotpEvents(cfg, w, run))
    decreases |run|
  {
    if run != [] {
      var r, now := run[0].request, run[0].at;
      var next, es := Step(cfg, w, r, now).0, TotpEvent(cfg, w, r, now);
      StepUsesTotp(cfg, w, r, now);
      EventAt(cfg, w, r, now);
      hide TotpEvent, Step;
      TraceIsTotpRun(cfg, next, run[1..], now);
      var rest := TotpEvents(cfg, next, run[1..]);
      if es == [] {
        assert es + rest == rest;
        TimedWeakens(rest, clock, now);
      } else {
        OneMoreEvent(cfg.totp, w.used, es, rest, clock, now);
      }
    }
  }

  lemma OneMoreEvent(cfg: Totp.Config, used: Totp.Used, es: seq<Totp.Event>, rest: seq<Totp.Event>, clock: nat, now: nat)
    requires cfg.Valid() && |es| == 1 && es[0].at == now >= clock && (es[0].SweepAt? ==> es[0].seen <= now)
    requires Totp.Timed(rest, now)
    ensures Totp.Timed(es + rest, clock)
    ensures Totp.Accepted(cfg, used, es + rest)
            == Totp.Accepted(cfg, used, es) + Totp.Accepted(cfg, Totp.Step(cfg, used, es[0]), rest)
  {
    assert es == [es[0]] && (es + rest)[1..] == rest;
    AcceptedCons(cfg, used, es[0], rest);
    hide Totp.Accepted, Totp.Step;
  }

  lemma AcceptedCons(cfg: Totp.Config, used: Totp.Used, e: Totp.Event, rest: seq<Totp.Event>)
    requires cfg.Valid()
    ensures Totp.Accepted(cfg, used, [e] + rest)
         == Totp.Accepted(cfg, used, [e]) + Totp.Accepted(cfg, Totp.Step(cfg, used, e), rest)
  {
    assert ([e] + rest)[1..] == rest && [e][1..] == [];
  }

  lemma EventAt(cfg: Config, w: World, r: Request, now: nat)
    requires cfg.Valid()
    ensures forall e | e in TotpEvent(cfg, w, r, now) :: e.at == now && (e.SweepAt? ==> r.SweepUsed? && e.seen == r.seen)
  {
  }

  lemma TimedWeakens(es: seq<Totp.Event>, clock: nat, now: nat)
    requires clock <= now && Totp.Timed(es, now)
    ensures Totp.Timed(es, clock)
  {
  }

  /** Across the whole protocol, enrolments included, no one-time code is accepted twice. */
  lemma CodesSingleUse(cfg: Config, run: seq<Timed>, clock: nat)
    requires cfg.Valid() && Monotone(run, clock)
    requires cfg.totp.ttl >= (2 * cfg.totp.skew + 1) * cfg.totp.step - 1
    ensures Totp.Distinct(CodesAccepted(cfg, EMPTY, run))
  {
    hide Monotone, CodesAccepted, TotpEvents, Totp.Accepted, Totp.Timed, Totp.Distinct;
    TraceIsTotpRun(cfg, EMPTY, run, clock);
    assert EMPTY.used == map[];
    Totp.SingleUse(cfg.totp, map[], TotpEvents(cfg, EMPTY, run), clock);
  }

  // ---- what a step logs and blacklists ----

  function RevokedBy(r: Request): set<nat> {
    if r.Revoke? then {r.jti} else {}
  }

  /** What the step to `v` adds to the log and to the blacklist, which go together. */
  predicate ListsWhatItLogs(cfg: Config, w: World, v: World, r: Request) {
    || (v.log == w.log && v.blacklist == w.blacklist + (if cfg.revokeAdd then RevokedBy(r) else {}))
    || (!r.Revoke? && |v.log| == |w.log| + 1 && v.log[..|w.log|] == w.log
        && v.blacklist == w.blacklist + (if cfg.revokeAdd then WrittenBy(v.log[|w.log|]) else {}))
  }

  function WrittenBy(e: Entry): set<nat> {
    if e.Session? && e.via.Some? && e.writeOk then {e.via.value} else {}
  }

  lemma LoginLists(cfg: Config, w: World, r: Request, now: nat)
    requires cfg.Valid() && r.Login?
    ensures ListsWhatItLogs(cfg, w, LoginStep(cfg, w, r.username, r.password, r.recordOk, now).0, r)
  {
    hide RecordFailure, Locks;
  }

  /** A grant after steps that left log and blacklist alone. */
  lemma GrantLists(cfg: Config, w: World, x: World, r: Request, n: string, u: User, now: nat, factor: Factor)
    requires (r.VerifyMfa? || r.VerifyPasskey?) && x.log == w.log && x.blacklist == w.blacklist
    ensures ListsWhatItLogs(cfg, w, Grant(cfg, x, n, u, now, factor, Some(r.jti), r.readOk, r.writeOk), r)
  {
  }

  lemma VerifyMfaLists(cfg: Config, w: World, r: Request, now: nat)
    requires cfg.Valid() && r.VerifyMfa?
    ensures ListsWhatItLogs(cfg, w, VerifyMfaStep(cfg, w, r, now).0, r)
  {
    hide RecordFailure, Locks, Totp.Verifies, Totp.AfterVerify, Spend, ListsWhatItLogs, Grant;
    var v := VerifyMfaStep(cfg, w, r, now).0;
    if VerifyMfaStep(cfg, w, r, now).1.Token? {
      var n := w.issued[r.jti].username;
      var u := w.users[n];
      var x := if u.totp.Some? then w.(used := Totp.AfterVerify(cfg.totp, w.used, u.totp.value, r.code, now)) else w;
      if u.totp.Some? && Totp.Verifies(cfg.totp, w.used, u.totp.value, r.code, now) {
        GrantLists(cfg, w, x, r, n, u, now, TotpCode);
      } else {
        GrantLists(cfg, w, Update(x, n, u.(recovery := Spend(u.recovery.value, r.code))), r, n, u, now, RecoveryCode);
      }
    } else {
      RefusalLists(cfg, w, r, now);
    }
  }

  lemma RefusalLists(cfg: Config, w: World, r: Request, now: nat)
    requires cfg.Valid() && r.VerifyMfa? && !VerifyMfaStep(cfg, w, r, now).1.Token?
    ensures ListsWhatItLogs(cfg, w, VerifyMfaStep(cfg, w, r, now).0, r)
  {
    hide RecordFailure, Locks, Totp.Verifies, Totp.AfterVerify, Spend, HasCode, Validates;
  }

  lemma VerifyPasskeyLists(cfg: Config, w: World, r: Request, now: nat)
    requires cfg.Valid() && r.VerifyPasskey?
    ensures ListsWhatItLogs(cfg, w, VerifyPasskeyStep(cfg, w, r, now).0, r)
  {
    hide Validates;
  }

  lemma OtherLists(cfg: Config, w: World, r: Request, now: nat)
    requires cfg.Valid() && !r.Login? && !r.VerifyMfa? && !r.VerifyPasskey?
    ensures ListsWhatItLogs(cfg, w, Step(cfg, w, r, now).0, r)
  {
    hide LoginStep, VerifyMfaStep, VerifyPasskeyStep, Totp.Verifies, Totp.AfterVerify, Totp.Sweep;
  }

  lemma StepLists(cfg: Config, w: World, r: Request, now: nat)
    requires cfg.Valid()
    ensures ListsWhatItLogs(cfg, w, Step(cfg, w, r, now).0, r)
  {
    hide ListsWhatItLogs, LoginStep, VerifyMfaStep, VerifyPasskeyStep;
    match r {
      case Login(_, _, _) => LoginLists(cfg, w, r, now);
      case VerifyMfa(_, _, _, _, _, _) => VerifyMfaLists(cfg, w, r, now);
      case VerifyPasskey(_, _, _, _, _) => VerifyPasskeyLists(cfg, w, r, now);
      case _ => OtherLists(cfg, w, r, now);
    }
  }
}
