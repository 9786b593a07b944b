/** Which answer a sign-in gets, how long the token it is answered with lives, and how a second factor
    comes about, on the fields of the user and of the request and over whole runs. */
module SignIn {
  import opened Base
  import opened Auth
  import opened MfaProtocol
  import opened MfaSessions
  import opened MfaTokens
  import Totp

  const TICKS_PER_SECOND := 1_000_000_000

  // ---- passwords ----

  /** The account exists, is enabled, has a password and is not locked. */
  predicate OpenToPasswords(cfg: Config, w: World, n: string, now: nat) {
    n in w.users && w.users[n].enabled && w.users[n].hash != ""
    && (cfg.maxFails > 0 && w.users[n].lockedUntil.Some? ==> w.users[n].lockedUntil.value <= now)
  }

  predicate RightPassword(cfg: Config, w: World, r: Request, now: nat) {
    r.Login? && OpenToPasswords(cfg, w, r.username, now) && cfg.matches(w.users[r.username].hash, r.password)
  }

  /** A password alone is not enough for the user: a second factor is enabled or enforced, or the user has
      a passkey where passkeys are configured. */
  predicate OwesMore(cfg: Config, u: User) {
    u.mfaEnabled || u.mfaEnforced || (cfg.passkey && u.passkeyEnabled)
  }

  /** The step logs the entry and issues its token, of the given scope and life, for the user. */
  predicate Issues(w: World, v: World, u: User, e: Entry, mfa: bool, until: nat) {
    && e.jti == w.nextJti && v.nextJti == w.nextJti + 1 && v.log == w.log + [e]
    && v.issued == w.issued[e.jti := Claims(u.id, e.username, mfa, until / TICKS_PER_SECOND)]
  }

  predicate IssuesNothing(w: World, v: World) {
    v.log == w.log && v.issued == w.issued && v.nextJti == w.nextJti && v.blacklist == w.blacklist
  }

  /** The right password is answered with a session exactly if it is enough, and else with a temporary
      token; no other login is answered with a token or leaves an entry. */
  lemma LoginStepExactly(cfg: Config, w: World, r: Request, now: nat)
    requires r.Login?
    ensures var (v, reply) := LoginStep(cfg, w, r.username, r.password, r.recordOk, now);
            if RightPassword(cfg, w, r, now) then
              var n, u := r.username, w.users[r.username];
              && reply == Token(w.nextJti)
              && (if OwesMore(cfg, u) then Issues(w, v, u, FirstFactor(n, w.nextJti), true, now + cfg.mfaTtl)
                  else Issues(w, v, u, Session(n, w.nextJti, Password, false, None, true, true), false, now + cfg.ttl))
            else reply.Refused? && IssuesNothing(w, v)
  {
    hide RecordFailure, Locks;
  }

  /** Why a login is refused: no such user, a lock, a disabled account, an account without a password, or
      a wrong password; the last of too many wrong ones reports the lock that it starts. */
  lemma LoginRefusedExactly(cfg: Config, w: World, r: Request, now: nat)
    requires r.Login? && !RightPassword(cfg, w, r, now)
    ensures var why := LoginStep(cfg, w, r.username, r.password, r.recordOk, now).1.why;
            var known := r.username in w.users;
            var locked := known && cfg.maxFails > 0 && w.users[r.username].lockedUntil.Some? && now < w.users[r.username].lockedUntil.value;
            && (!known ==> why == InvalidCredentials)
            && (locked ==> why == Locked)
            && (known && !locked && !w.users[r.username].enabled ==> why == Disabled)
            && (known && !locked && w.users[r.username].enabled && w.users[r.username].hash == "" ==> why == UseSso)
            && (OpenToPasswords(cfg, w, r.username, now) ==>
                  why == if cfg.maxFails > 0 && r.recordOk && w.users[r.username].loginFails + 1 >= cfg.maxFails
                         then Locked else InvalidCredentials)
  {
    hide RecordFailure;
  }

  /** In any run, a request with the right password logs a session for the password exactly if the user
      owed nothing more in the world it met, and else a first factor whose token is a temporary one; any
      other login logs nothing. */
  lemma PasswordAnswersExactly(cfg: Config, run: seq<Timed>, p: nat)
    requires cfg.Valid() && p < |run| && run[p].request.Login?
    ensures var w, v := Before(cfg, EMPTY, run, p), Before(cfg, EMPTY, run, p + 1);
            var r, now := run[p].request, run[p].at;
            if RightPassword(cfg, w, r, now) then
              var n, u := r.username, w.users[r.username];
              if !u.mfaEnabled && !u.mfaEnforced && !(cfg.passkey && u.passkeyEnabled)
              then Issues(w, v, u, Session(n, w.nextJti, Password, false, None, true, true), false, now + cfg.ttl)
              else Issues(w, v, u, FirstFactor(n, w.nextJti), true, now + cfg.mfaTtl)
            else IssuesNothing(w, v)
  {
    hide Before, LoginStep, RightPassword, Issues, IssuesNothing;
    BeforeNext(cfg, EMPTY, run, p);
    LoginStepExactly(cfg, Before(cfg, EMPTY, run, p), run[p].request, run[p].at);
  }

  /** So no session of any run was given for a password alone to a user who owed more. */
  lemma PasswordSessionOwesNothing(cfg: Config, run: seq<Timed>, k: nat)
    requires cfg.Valid() && k < |After(cfg, EMPTY, run).log|
    requires After(cfg, EMPTY, run).log[k].Session? && After(cfg, EMPTY, run).log[k].factor == Password
    ensures var p := Origin(cfg, EMPTY, run, k);
            var w, n := Before(cfg, EMPTY, run, p), After(cfg, EMPTY, run).log[k].username;
            n in w.users && !w.users[n].mfaEnabled && !w.users[n].mfaEnforced
            && !(cfg.passkey && w.users[n].passkeyEnabled)
  {
    hide After, Before, Origin, Earned;
    var p := Origin(cfg, EMPTY, run, k);
    EntryEarned(cfg, run, k);
    OriginIs(cfg, EMPTY, run, k);
    var w, v := Before(cfg, EMPTY, run, p), Before(cfg, EMPTY, run, p + 1);
    EarnedByPassword(cfg, w, v, run[p].request, run[p].at, After(cfg, EMPTY, run).log[k]);
    PasswordAnswersExactly(cfg, run, p);
    assert v.log[k] == After(cfg, EMPTY, run).log[k] && |w.log| == k;
  }

  lemma EarnedByPassword(cfg: Config, w: World, v: World, r: Request, now: nat, e: Entry)
    requires cfg.Valid() && Earned(cfg, w, v, r, now, e) && e.Session? && e.factor == Password
    ensures r.Login? && r.username == e.username && RightPassword(cfg, w, r, now)
  {
  }

  /** The right password clears the account's counter and lock, if they are kept and the database takes
      it, and changes nothing else of any account. */
  lemma RightPasswordClears(cfg: Config, w: World, r: Request, now: nat)
    requires RightPassword(cfg, w, r, now)
    ensures LoginStep(cfg, w, r.username, r.password, r.recordOk, now).0.users
            == if cfg.maxFails > 0 && r.recordOk
               then w.users[r.username := w.users[r.username].(loginFails := 0, lockedUntil := None)] else w.users
  {
  }

  // ---- identity providers ----

  /** A sign-in over an identity provider is refused exactly if there is no user name or the identifier is
      another account's. Otherwise the account is there and enabled afterwards, with its factors as they
      were, and the answer is a session exactly if the provider reports a second factor or the account
      needs none. */
  lemma SsoLoginExactly(cfg: Config, w: World, r: Request, now: nat)
    requires r.SsoLogin?
    ensures var (v, reply) := SsoLoginStep(cfg, w, r.username, r.id, r.amrMfa, now);
            var n := r.username;
            var clash := n !in w.users && exists k :: k in w.users && w.users[k].id == r.id;
            if n == "" || clash then v == w && reply.Refused?
            else
              var u := if n in w.users then w.users[n].(enabled := true)
                       else User(r.id, "", true, false, false, false, None, None, None, None, 0, None);
              && reply == Token(w.nextJti) && v.users == w.users[n := u] && v.used == w.used
              && (if r.amrMfa || !(u.mfaEnabled || u.mfaEnforced)
                  then Issues(w, v, u, Session(n, w.nextJti, Idp(r.amrMfa), u.mfaEnabled || u.mfaEnforced, None, true, true), false, now + cfg.ttl)
                  else Issues(w, v, u, FirstFactor(n, w.nextJti), true, now + cfg.mfaTtl))
  {
  }

  // ---- how long a token lives ----

  /** A step issues at most one token, for the entry it logs; a temporary token lives for `mfaTtl`, a
      session for `ttl`. */
  predicate IssuesOne(cfg: Config, w: World, v: World, now: nat) {
    || (v.log == w.log && v.issued == w.issued && v.nextJti == w.nextJti)
    || (|v.log| == |w.log| + 1 && v.log[..|w.log|] == w.log && v.nextJti == w.nextJti + 1
        && var e := v.log[|w.log|];
           e.jti == w.nextJti && e.jti in v.issued && v.issued == w.issued[e.jti := v.issued[e.jti]]
           && ClaimsOf(cfg, v.issued[e.jti], e, now))
  }

  predicate ClaimsOf(cfg: Config, c: Claims, e: Entry, now: nat) {
    c.username == e.username && c.mfa == e.FirstFactor?
    && c.expires == (now + (if e.FirstFactor? then cfg.mfaTtl else cfg.ttl)) / TICKS_PER_SECOND
  }

  lemma GrantIssues(cfg: Config, w: World, x: World, n: string, u: User, now: nat, factor: Factor,
                    via: Option<nat>, readOk: bool, writeOk: bool)
    requires x.log == w.log && x.issued == w.issued && x.nextJti == w.nextJti
    ensures IssuesOne(cfg, w, Grant(cfg, x, n, u, now, factor, via, readOk, writeOk), now)
  {
  }

  lemma VerifyMfaIssues(cfg: Config, w: World, r: Request, now: nat)
    requires cfg.Valid() && r.VerifyMfa?
    ensures IssuesOne(cfg, w, VerifyMfaStep(cfg, w, r, now).0, now)
  {
    hide RecordFailure, Locks, Totp.Verifies, Totp.AfterVerify, Spend, IssuesOne, Grant;
    var v := VerifyMfaStep(cfg, w, r, now).0;
    if VerifyMfaStep(cfg, w, r, now).1.Token? {
      var n := w.issued[r.jti].username;
      var u := w.users[n];
      var x := if u.totp.Some? then w.(used := Totp.AfterVerify(cfg.totp, w.used, u.totp.value, r.code, now)) else w;
      if ShowsCode(cfg, w, r, now, n) {
        GrantIssues(cfg, w, x, n, u, now, TotpCode, Some(r.jti), r.readOk, r.writeOk);
      } else {
        GrantIssues(cfg, w, Update(x, n, u.(recovery := Spend(u.recovery.value, r.code))), n, u, now, RecoveryCode,
                    Some(r.jti), r.readOk, r.writeOk);
      }
    } else {
      RefusalIssuesNothing(cfg, w, r, now);
    }
  }

  lemma RefusalIssuesNothing(cfg: Config, w: World, r: Request, now: nat)
    requires cfg.Valid() && r.VerifyMfa? && !VerifyMfaStep(cfg, w, r, now).1.Token?
    ensures IssuesOne(cfg, w, VerifyMfaStep(cfg, w, r, now).0, now)
  {
    hide RecordFailure, Locks, Totp.Verifies, Totp.AfterVerify, Spend, HasCode, Validates;
  }

  lemma LoginIssues(cfg: Config, w: World, r: Request, now: nat)
    requires r.Login?
    ensures IssuesOne(cfg, w, LoginStep(cfg, w, r.username, r.password, r.recordOk, now).0, now)
  {
    LoginStepExactly(cfg, w, r, now);
    hide LoginStep, RightPassword, OwesMore;
  }

  lemma VerifyPasskeyIssues(cfg: Config, w: World, r: Request, now: nat)
    requires r.VerifyPasskey?
    ensures IssuesOne(cfg, w, VerifyPasskeyStep(cfg, w, r, now).0, now)
  {
    hide Validates;
  }

  lemma SsoLoginIssues(cfg: Config, w: World, r: Request, now: nat)
    requires r.SsoLogin?
    ensures IssuesOne(cfg, w, SsoLoginStep(cfg, w, r.username, r.id, r.amrMfa, now).0, now)
  {
    SsoLoginExactly(cfg, w, r, now);
    hide SsoLoginStep;
  }

  lemma StepIssues(cfg: Config, w: World, r: Request, now: nat)
    requires cfg.Valid()
    ensures IssuesOne(cfg, w, Step(cfg, w, r, now).0, now)
  {
    hide LoginStep, VerifyMfaStep, VerifyPasskeyStep, SsoLoginStep, Totp.AfterVerify, Totp.Verifies, Totp.Sweep;
    match r {
      case Login(_, _, _) => LoginIssues(cfg, w, r, now);
      case VerifyMfa(_, _, _, _, _, _) => VerifyMfaIssues(cfg, w, r, now);
      case VerifyPasskey(_, _, _, _, _) => VerifyPasskeyIssues(cfg, w, r, now);
      case SsoLogin(_, _, _) => SsoLoginIssues(cfg, w, r, now);
      case _ =>
    }
  }

  lemma {:induction false} IssuedStays(cfg: Config, w: World, run: seq<Timed>, jti: nat)
    requires cfg.Valid() && Inv(cfg, w) && jti in w.issued
    ensures jti in After(cfg, w, run).issued && After(cfg, w, run).issued[jti] == w.issued[jti]
    decreases |run|
  {
    if run != [] {
      var r, now := run[0].request, run[0].at;
      StepIssues(cfg, w, r, now);
      StepKeepsInv(cfg, w, r, now);
      assert jti < w.nextJti;
      hide Step, Inv, ClaimsOf;
      IssuedStays(cfg, Step(cfg, w, r, now).0, run[1..], jti);
    }
  }

  /** After any run the token of a log entry carries the user's name, the scope that goes with the entry
      and the expiry that its origin gave it. */
  lemma TokenOfEntry(cfg: Config, run: seq<Timed>, k: nat)
    requires cfg.Valid() && k < |After(cfg, EMPTY, run).log|
    ensures var w, e := After(cfg, EMPTY, run), After(cfg, EMPTY, run).log[k];
            e.jti in w.issued && ClaimsOf(cfg, w.issued[e.jti], e, run[Origin(cfg, EMPTY, run, k)].at)
  {
    hide Step, Before, Origin, ClaimsOf, Inv;
    var p := Origin(cfg, EMPTY, run, k);
    OriginIs(cfg, EMPTY, run, k);
    BeforeNext(cfg, EMPTY, run, p);
    var w, v := Before(cfg, EMPTY, run, p), Before(cfg, EMPTY, run, p + 1);
    StepIssues(cfg, w, run[p].request, run[p].at);
    assert |w.log| == k && v.log[k] == After(cfg, EMPTY, run).log[k];
    IssuedFrom(cfg, run, p + 1, v.log[k].jti);
  }

  lemma IssuedFrom(cfg: Config, run: seq<Timed>, p: nat, jti: nat)
    requires cfg.Valid() && p <= |run| && jti in Before(cfg, EMPTY, run, p).issued
    ensures var w := After(cfg, EMPTY, run);
            jti in w.issued && w.issued[jti] == Before(cfg, EMPTY, run, p).issued[jti]
  {
    assert run == run[..p] + run[p..];
    AfterAppend(cfg, EMPTY, run[..p], run[p..]);
    RunKeepsInv(cfg, EMPTY, run[..p]);
    hide After, Inv;
    IssuedStays(cfg, Before(cfg, EMPTY, run, p), run[p..], jti);
  }

  /** By the second in which it lapses; an expiry of zero stands for none. */
  predicate Lives(now: nat, until: nat) {
    until / TICKS_PER_SECOND == 0 || now / TICKS_PER_SECOND <= until / TICKS_PER_SECOND
  }

  /** Some session of the run has this token and was issued less than `ttl` ago. */
  ghost predicate SessionLives(cfg: Config, run: seq<Timed>, jti: nat, now: nat)
    requires cfg.Valid()
  {
    exists k | 0 <= k < |After(cfg, EMPTY, run).log| ::
      && After(cfg, EMPTY, run).log[k].Session? && After(cfg, EMPTY, run).log[k].jti == jti
      && Lives(now, run[Origin(cfg, EMPTY, run, k)].at + cfg.ttl)
  }

  /** Some first factor of the run was answered with this temporary token less than `mfaTtl` ago. */
  ghost predicate ChallengeLives(cfg: Config, run: seq<Timed>, jti: nat, now: nat)
    requires cfg.Valid()
  {
    exists k | 0 <= k < |After(cfg, EMPTY, run).log| ::
      && After(cfg, EMPTY, run).log[k].FirstFactor? && After(cfg, EMPTY, run).log[k].jti == jti
      && Lives(now, run[Origin(cfg, EMPTY, run, k)].at + cfg.mfaTtl)
  }

  /** Every issued token has an entry in the log, of the kind that its scope says. */
  lemma EntryOfToken(cfg: Config, run: seq<Timed>, jti: nat) returns (k: nat)
    requires cfg.Valid() && jti in After(cfg, EMPTY, run).issued
    ensures k < |After(cfg, EMPTY, run).log| && After(cfg, EMPTY, run).log[k].jti == jti
    ensures After(cfg, EMPTY, run).issued[jti].mfa == After(cfg, EMPTY, run).log[k].FirstFactor?
  {
    var w := After(cfg, EMPTY, run);
    RunKeepsInv(cfg, EMPTY, run);
    hide After;
    if w.issued[jti].mfa {
      assert FirstFactor(w.issued[jti].username, jti) in w.log;
      k :| 0 <= k < |w.log| && w.log[k] == FirstFactor(w.issued[jti].username, jti);
    } else {
      k :| 0 <= k < |w.log| && IsSession(w.log[k], w.issued[jti].username, jti);
    }
  }

  lemma LiveTokens(cfg: Config, run: seq<Timed>, jti: nat, now: nat)
    requires cfg.Valid()
    ensures var w := After(cfg, EMPTY, run);
            var live := jti in w.issued && !(w.issued[jti].expires > 0 && Unix(now) > w.issued[jti].expires);
            && (live && !w.issued[jti].mfa <==> SessionLives(cfg, run, jti, now))
            && (live && w.issued[jti].mfa <==> ChallengeLives(cfg, run, jti, now))
  {
    var w := After(cfg, EMPTY, run);
    hide After, Origin;
    if jti in w.issued {
      var k := EntryOfToken(cfg, run, jti);
      TokenOfEntry(cfg, run, k);
    }
    forall k | 0 <= k < |w.log|
      ensures w.log[k].jti in w.issued && ClaimsOf(cfg, w.issued[w.log[k].jti], w.log[k], run[Origin(cfg, EMPTY, run, k)].at)
    {
      TokenOfEntry(cfg, run, k);
    }
  }

  /** A session token is never on the blacklist for having been consumed. */
  lemma SessionNotConsumed(cfg: Config, run: seq<Timed>, jti: nat)
    requires cfg.Valid() && jti in After(cfg, EMPTY, run).issued && !After(cfg, EMPTY, run).issued[jti].mfa
    ensures !ConsumedForGood(After(cfg, EMPTY, run).log, jti)
  {
    var w := After(cfg, EMPTY, run);
    RunKeepsInv(cfg, EMPTY, run);
    hide After;
    forall k | 0 <= k < |w.log|
      ensures !Consumes(w.log[k], jti)
    {
      assert Backed(w.log, k);
    }
  }

  /** After any run the middleware admits a request exactly if its token is that of a session of the run
      which was issued less than `ttl` ago, and the blacklist does not stop it: the token was not revoked,
      or a hook is missing, or the lookup fails. */
  lemma AdmittedExactly(cfg: Config, run: seq<Timed>, jti: nat, readOk: bool, now: nat)
    requires cfg.Valid()
    ensures Admits(cfg, After(cfg, EMPTY, run), jti, readOk, now)
            <==> SessionLives(cfg, run, jti, now)
                 && !(cfg.revokeAdd && cfg.revokedCheck && readOk && jti in Revoked(run))
  {
    var w := After(cfg, EMPTY, run);
    LiveTokens(cfg, run, jti, now);
    BlacklistExact(cfg, run, jti);
    hide After, SessionLives, ChallengeLives, Revoked, ConsumedForGood;
    if jti in w.issued && !w.issued[jti].mfa {
      SessionNotConsumed(cfg, run, jti);
    }
  }

  /** And a temporary token is pending exactly if it is that of a first factor of the run which was
      answered less than `mfaTtl` ago. */
  lemma PendingExactly(cfg: Config, run: seq<Timed>, jti: nat, now: nat)
    requires cfg.Valid()
    ensures Pending(After(cfg, EMPTY, run), jti, now) <==> ChallengeLives(cfg, run, jti, now)
  {
    LiveTokens(cfg, run, jti, now);
    hide After, SessionLives, ChallengeLives;
  }

  // ---- how a second factor comes about ----

  /** A request that shows a claimable code of the secret that the user's enrolment is pending with. */
  predicate ShowsPendingCode(cfg: Config, w: World, r: Request, now: nat, n: string)
    requires cfg.Valid()
  {
    && r.ConfirmMfa? && r.username == n && r.persistOk && cfg.mfa && n in w.users && w.users[n].pendingTotp.Some?
    && Totp.Verifies(cfg.totp, w.used, w.users[n].pendingTotp.value, r.code, now)
  }

  /** Beginning an enrolment is done exactly if second factors are configured, the user exists and the
      secrets are made and saved; it sets the pending ones and nothing else. */
  lemma BeginExactly(cfg: Config, w: World, r: Request, now: nat)
    requires cfg.Valid() && r.BeginMfa?
    ensures var (v, reply) := Step(cfg, w, r, now);
            if cfg.mfa && r.username in w.users && r.made && r.persistOk then
              reply == Done
              && v == w.(users := w.users[r.username := w.users[r.username].(pendingTotp := Some(r.secret),
                                                                             pendingRecovery := Some(r.codes))])
            else reply.Refused? && v == w
  {
    hide LoginStep, VerifyMfaStep, VerifyPasskeyStep, SsoLoginStep, ConfirmMfaStep;
  }

  /** Confirming is done exactly if a claimable code of the pending secret is shown and the row is saved.
      Then the pending secret and codes are the user's, none are pending, and the user needs a second
      factor; no other account changes, and no token is issued. */
  lemma ConfirmExactly(cfg: Config, w: World, r: Request, now: nat)
    requires cfg.Valid() && r.ConfirmMfa?
    ensures var (v, reply) := Step(cfg, w, r, now);
            && (reply == Done <==> ShowsPendingCode(cfg, w, r, now, r.username))
            && (reply != Done ==> v.users == w.users)
            && (reply == Done ==>
                  var u := w.users[r.username];
                  v.users == w.users[r.username :=
                    u.(totp := u.pendingTotp, pendingTotp := None, pendingRecovery := None, mfaEnabled := true,
                       recovery := match u.pendingRecovery case Some(c) => Some(c) case None => u.recovery)])
            && v.log == w.log && v.issued == w.issued && v.blacklist == w.blacklist
  {
    hide LoginStep, VerifyMfaStep, VerifyPasskeyStep, SsoLoginStep, Totp.AfterVerify, Totp.Verifies;
  }

  /** Disabling is done exactly if the user exists and the row is saved; it drops the second factor of the
      user's own but not an enforced requirement. */
  lemma DisableExactly(cfg: Config, w: World, r: Request, now: nat)
    requires cfg.Valid() && r.DisableMfa?
    ensures var (v, reply) := Step(cfg, w, r, now);
            if r.username in w.users && r.persistOk then
              reply == Done
              && v == w.(users := w.users[r.username := w.users[r.username].(totp := None, recovery := None,
                                                                             mfaEnabled := false)])
            else reply.Refused? && v == w
  {
    hide LoginStep, VerifyMfaStep, VerifyPasskeyStep, SsoLoginStep, ConfirmMfaStep;
  }

  predicate Enrolled(w: World, n: string) {
    n in w.users && w.users[n].mfaEnabled
  }

  /** Only a confirmed enrolment turns a user's second factor on, and only disabling turns it off. */
  predicate EnrolmentMoves(cfg: Config, w: World, v: World, r: Request, now: nat, n: string)
    requires cfg.Valid()
  {
    && (!Enrolled(w, n) && Enrolled(v, n) ==> ShowsPendingCode(cfg, w, r, now, n))
    && (Enrolled(w, n) && !Enrolled(v, n) ==> r == DisableMfa(n, true))
  }

  lemma LoginEnrolsNone(cfg: Config, w: World, r: Request, now: nat, n: string)
    requires cfg.Valid() && r.Login?
    ensures EnrolmentMoves(cfg, w, LoginStep(cfg, w, r.username, r.password, r.recordOk, now).0, r, now, n)
  {
    hide Locks;
  }

  lemma RowKeepsEnrolment(cfg: Config, w: World, v: World, r: Request, now: nat, n: string, k: string)
    requires cfg.Valid() && k in w.users && k in v.users
    requires v.users == w.users[k := v.users[k]] && v.users[k].mfaEnabled == w.users[k].mfaEnabled
    ensures EnrolmentMoves(cfg, w, v, r, now, n)
  {
    hide ShowsPendingCode;
  }

  lemma AcceptedKeepsEnrolment(cfg: Config, w: World, r: Request, now: nat)
    requires cfg.Valid() && r.VerifyMfa? && VerifyMfaStep(cfg, w, r, now).1.Token?
    ensures var v := VerifyMfaStep(cfg, w, r, now).0;
            && r.jti in w.issued
            && var k := w.issued[r.jti].username;
               k in w.users && k in v.users && v.users == w.users[k := v.users[k]]
               && v.users[k].mfaEnabled == w.users[k].mfaEnabled
  {
    hide Locks, Totp.Verifies, Totp.AfterVerify, Spend, HasCode, RecordFailure;
  }

  lemma VerifyMfaEnrolsNone(cfg: Config, w: World, r: Request, now: nat, n: string)
    requires cfg.Valid() && r.VerifyMfa?
    ensures EnrolmentMoves(cfg, w, VerifyMfaStep(cfg, w, r, now).0, r, now, n)
  {
    var v := VerifyMfaStep(cfg, w, r, now).0;
    hide Locks, Totp.Verifies, Totp.AfterVerify, Spend, HasCode, RecordFailure, EnrolmentMoves;
    if VerifyMfaStep(cfg, w, r, now).1.Token? {
      AcceptedKeepsEnrolment(cfg, w, r, now);
      RowKeepsEnrolment(cfg, w, v, r, now, n, w.issued[r.jti].username);
    } else if v.users == w.users {
      SameEnrolment(cfg, w, v, r, now, n);
    } else {
      var k := w.issued[r.jti].username;
      FailureKeepsEnrolment(cfg, w.users[k], now);
      RowKeepsEnrolment(cfg, w, v, r, now, n, k);
    }
  }

  lemma SameEnrolment(cfg: Config, w: World, v: World, r: Request, now: nat, n: string)
    requires cfg.Valid() && v.users == w.users
    ensures EnrolmentMoves(cfg, w, v, r, now, n)
  {
    hide ShowsPendingCode;
  }

  lemma FailureKeepsEnrolment(cfg: Config, u: User, now: int)
    ensures RecordFailure(cfg, u, now).mfaEnabled == u.mfaEnabled
  {
  }

  lemma StepMovesEnrolment(cfg: Config, w: World, r: Request, now: nat, n: string)
    requires cfg.Valid()
    ensures EnrolmentMoves(cfg, w, Step(cfg, w, r, now).0, r, now, n)
  {
    hide LoginStep, VerifyMfaStep, VerifyPasskeyStep, SsoLoginStep, ConfirmMfaStep, ShowsPendingCode;
    match r {
      case Login(_, _, _) => LoginEnrolsNone(cfg, w, r, now, n);
      case VerifyMfa(_, _, _, _, _, _) => VerifyMfaEnrolsNone(cfg, w, r, now, n);
      case VerifyPasskey(_, _, _, _, _) => PasskeyKeepsUsers(cfg, w, r, now);
      case SsoLogin(_, _, _) => SsoLoginExactly(cfg, w, r, now);
      case ConfirmMfa(_, _, _) => ConfirmExactly(cfg, w, r, now);
      case _ =>
    }
  }

  lemma PasskeyKeepsUsers(cfg: Config, w: World, r: Request, now: nat)
    requires r.VerifyPasskey?
    ensures VerifyPasskeyStep(cfg, w, r, now).0.users == w.users
  {
    hide Validates;
  }

  /** If a user is enrolled after a run and was not before it, some request of the run confirmed an
      enrolment by a code of the pending secret. */
  lemma {:induction false} EnrolledByConfirming(cfg: Config, w: World, run: seq<Timed>, n: string) returns (p: nat)
    requires cfg.Valid() && !Enrolled(w, n) && Enrolled(After(cfg, w, run), n)
    ensures p < |run| && ShowsPendingCode(cfg, Before(cfg, w, run, p), run[p].request, run[p].at, n)
    decreases |run|
  {
    assert run != [];
    var r, now := run[0].request, run[0].at;
    var v := Step(cfg, w, r, now).0;
    StepMovesEnrolment(cfg, w, r, now, n);
    hide Step, ShowsPendingCode, Enrolled, Before;
    if Enrolled(v, n) {
      p := 0;
      FirstWorld(cfg, w, run);
    } else {
      var q := EnrolledByConfirming(cfg, v, run[1..], n);
      BeforeCons(cfg, w, run, q + 1);
      p := q + 1;
    }
  }

  lemma FirstWorld(cfg: Config, w: World, run: seq<Timed>)
    requires cfg.Valid()
    ensures Before(cfg, w, run, 0) == w
  {
    assert run[..0] == [];
  }

  /** And if a user is enrolled before a run without a request to disable that, it is after it: from then on
      every login with the right password is answered with a temporary token. */
  lemma {:induction false} StaysEnrolled(cfg: Config, w: World, run: seq<Timed>, n: string)
    requires cfg.Valid() && Enrolled(w, n)
    requires forall e | e in run :: !(e.request.DisableMfa? && e.request.username == n)
    ensures Enrolled(After(cfg, w, run), n)
    decreases |run|
  {
    if run != [] {
      var r, now := run[0].request, run[0].at;
      assert run[0] in run && forall e | e in run[1..] :: e in run;
      StepMovesEnrolment(cfg, w, r, now, n);
      hide Step, Enrolled;
      StaysEnrolled(cfg, Step(cfg, w, r, now).0, run[1..], n);
    }
  }

  /** Until a user disables its second factor, after an enrolment every login with the right password logs
      a first factor and no session. */
  lemma EnrolledOwesSecondFactor(cfg: Config, run: seq<Timed>, p: nat, q: nat, n: string)
    requires cfg.Valid() && p <= q < |run| && Enrolled(Before(cfg, EMPTY, run, p), n)
    requires forall e | e in run[p..q] :: !(e.request.DisableMfa? && e.request.username == n)
    requires run[q].request.Login? && run[q].request.username == n
    ensures var w, v := Before(cfg, EMPTY, run, q), Before(cfg, EMPTY, run, q + 1);
            v.log == w.log || v.log == w.log + [FirstFactor(n, w.nextJti)]
  {
    assert run[..q] == run[..p] + run[p..q];
    AfterAppend(cfg, EMPTY, run[..p], run[p..q]);
    hide After, RightPassword;
    StaysEnrolled(cfg, Before(cfg, EMPTY, run, p), run[p..q], n);
    PasswordAnswersExactly(cfg, run, q);
  }
}
