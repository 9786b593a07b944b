/** The sign-in manager of backend/internal/auth/auth.go and the user store it works on, as objects
    that change their fields; each method does what the step function of module Auth says. */
module AuthManager {
  import opened Base
  import opened Auth
  import Totp

  lemma {:induction false} FirstIndex(codes: seq<string>, code: string, i: nat)
    requires i < |codes| && codes[i] == code && code !in codes[..i]
    ensures IndexOf(codes, code) == i
    decreases i
  {
    if i != 0 {
      assert codes[..i] == [codes[0]] + codes[1..][..i - 1];
      FirstIndex(codes[1..], code, i - 1);
    }
  }

  /** ConsumeRecovery: finds the code and removes it. */
  method ConsumeRecovery(recovery: Option<seq<string>>, code: string) returns (left: Option<seq<string>>, ok: bool)
    ensures ok == HasCode(recovery, code)
    ensures ok ==> left == Spend(recovery.value, code)
  {
    if recovery.None? {
      return None, false;
    }
    var codes := recovery.value;
    var idx := -1;
    for i := 0 to |codes|
      invariant idx == -1 && code !in codes[..i]
    {
      if codes[i] == code {
        idx := i;
        FirstIndex(codes, code, i);
        break;
      }
    }
    hide IndexOf;
    if idx < 0 {
      return None, false;
    }
    codes := codes[..idx] + codes[idx + 1..];
    if |codes| == 0 {
      return None, true;
    }
    return Some(codes), true;
  }

  /** Equal to "mfa" but for case; no letter outside ASCII folds to one of these three. */
  predicate IsMfa(s: string) {
    |s| == 3 && s[0] in "mM" && s[1] in "fF" && s[2] in "aA"
  }

  /** Whether the identity provider reports a second factor. */
  method AmrHasMfa(amr: seq<string>) returns (found: bool)
    ensures found <==> exists a | a in amr :: IsMfa(TrimSpace(a))
  {
    for i := 0 to |amr|
      invariant forall a | a in amr[..i] :: !IsMfa(TrimSpace(a))
    {
      if IsMfa(TrimSpace(amr[i])) {
        return true;
      }
    }
    return false;
  }

  lemma NothingRecorded(cfg: Config, w: World, username: string, ok: bool, now: nat)
    requires cfg.maxFails <= 0
    ensures Recorded(cfg, w, username, ok, now) == w
  {
  }

  class Manager {
    const cfg: Config
    var users: map<string, User>
    var blacklist: set<nat>
    var used: Totp.Used
    var issued: map<nat, Claims>
    var nextJti: nat
    var log: seq<Entry>

    function View(): World
      reads this
    {
      World(users, blacklist, used, issued, nextJti, log)
    }

    constructor (cfg: Config)
      ensures this.cfg == cfg && View() == EMPTY
    {
      this.cfg := cfg;
      users, blacklist, used, issued, nextJti, log := map[], {}, map[], map[], 0, [];
    }

    /** Counts a failure in the user row; the failure that fills the counter starts a lock. Without a
        limit it only counts. */
    method RecordLoginFailure(username: string, now: nat, ok: bool) returns (locked: bool, failed: bool)
      modifies this`users
      ensures View() == Counted(cfg, old(View()), username, ok, now)
      ensures failed <==> !ok || username !in users
      ensures locked <==> !failed && Locks(cfg, old(users)[username])
    {
      if !ok || username !in users {
        return false, true;
      }
      var u := users[username];
      u := u.(loginFails := u.loginFails + 1);
      locked := false;
      if cfg.maxFails > 0 && u.loginFails >= cfg.maxFails {
        u := u.(lockedUntil := Some(now + cfg.LockTicks()));
        u := u.(loginFails := 0);
        locked := true;
      }
      users := users[username := u];
      failed := false;
    }

    method SignToken(username: string, u: User, mfa: bool, expires: int) returns (jti: nat)
      modifies this`issued, this`nextJti
      ensures View() == Sign(old(View()), username, u, mfa, expires) && jti == old(nextJti)
    {
      jti := nextJti;
      issued := issued[jti := Claims(u.id, username, mfa, expires)];
      nextJti := nextJti + 1;
    }

    method SignMfaTempToken(username: string, u: User, now: nat) returns (jti: nat)
      modifies this`issued, this`nextJti, this`log
      ensures View() == Challenge(cfg, old(View()), username, u, now) && jti == old(nextJti)
    {
      jti := SignToken(username, u, true, Unix(now + cfg.mfaTtl));
      log := log + [FirstFactor(username, jti)];
    }

    /** Signs a session token and blacklists the temporary token it replaces, if there is one. */
    method Issue(username: string, u: User, now: nat, factor: Factor, via: Option<nat>, readOk: bool, writeOk: bool)
      returns (jti: nat)
      modifies this`issued, this`nextJti, this`log, this`blacklist
      ensures View() == Grant(cfg, old(View()), username, u, now, factor, via, readOk, writeOk)
      ensures jti == old(nextJti)
    {
      jti := SignToken(username, u, false, Unix(now + cfg.ttl));
      log := log + [Session(username, jti, factor, u.MfaRequired(), via, readOk, writeOk)];
      if cfg.revokeAdd && via.Some? && writeOk {
        blacklist := blacklist + {via.value};
      }
    }

    method Login(username: string, password: string, ok: bool, now: nat) returns (reply: Reply)
      modifies this
      ensures (View(), reply) == LoginStep(cfg, old(View()), username, password, ok, now)
    {
      if username !in users {
        return Refused(InvalidCredentials);
      }
      var u := users[username];
      if cfg.maxFails > 0 && u.lockedUntil.Some? && u.lockedUntil.value > now {
        return Refused(Locked);
      }
      if !u.enabled {
        return Refused(Disabled);
      }
      if u.hash == "" {
        return Refused(UseSso);
      }
      if !cfg.matches(u.hash, password) {
        if cfg.maxFails > 0 {
          var locked, failed := RecordLoginFailure(username, now, ok);
          if !failed && locked {
            return Refused(Locked);
          }
        }
        return Refused(InvalidCredentials);
      }
      if cfg.maxFails > 0 && ok {
        users := users[username := ClearFailures(u)];
      }
      var jti: nat;
      if u.MfaRequired() || (cfg.passkey && u.passkeyEnabled) {
        jti := SignMfaTempToken(username, u, now);
        return Token(jti);
      }
      jti := Issue(username, u, now, Password, None, true, true);
      return Token(jti);
    }

    method VerifyMfa(r: Request, now: nat) returns (reply: Reply)
      requires cfg.Valid() && r.VerifyMfa?
      modifies this
      ensures (View(), reply) == VerifyMfaStep(cfg, old(View()), r, now)
    {
      if !cfg.mfa {
        return Refused(NotConfigured);
      }
      if !Validates(cfg, View(), r.jti, r.readOk, now) {
        return Refused(BadToken);
      }
      var c := issued[r.jti];
      if !c.mfa {
        return Refused(NotAChallenge);
      }
      if Unix(now) > c.expires {
        return Refused(BadToken);
      }
      if c.username !in users {
        return Refused(NotFound);
      }
      reply := CheckCode(r, c.username, now);
    }

    /** The second half of VerifyMfa: the one-time code first, then the recovery codes. */
    method CheckCode(r: Request, username: string, now: nat) returns (reply: Reply)
      requires cfg.Valid() && r.VerifyMfa? && username in users
      requires cfg.mfa && Validates(cfg, View(), r.jti, r.readOk, now)
      requires issued[r.jti].mfa && issued[r.jti].username == username && Unix(now) <= issued[r.jti].expires
      modifies this
      ensures (View(), reply) == VerifyMfaStep(cfg, old(View()), r, now)
    {
      var u := users[username];
      var jti: nat;
      if u.totp.Some? {
        var good := Totp.Verifies(cfg.totp, used, u.totp.value, r.code, now);
        used := Totp.AfterVerify(cfg.totp, used, u.totp.value, r.code, now);
        if good {
          jti := Issue(username, u, now, TotpCode, Some(r.jti), r.readOk, r.writeOk);
          return Token(jti);
        }
      }
      var left, found := ConsumeRecovery(u.recovery, r.code);
      if found {
        if !r.persistOk {
          return Refused(StoreFailed);
        }
        users := users[username := u.(recovery := left)];
        jti := Issue(username, u, now, RecoveryCode, Some(r.jti), r.readOk, r.writeOk);
        return Token(jti);
      }
      reply := Refused(BadCode);
      if cfg.maxFails > 0 {
        var locked, failed := RecordLoginFailure(username, now, r.recordOk);
        if !failed && locked {
          reply := Refused(Locked);
        }
      } else {
        NothingRecorded(cfg, View(), username, r.recordOk, now);
      }
    }

    /** The user is the one whose id the token carries; `row` is its key. */
    method VerifyPasskey(r: Request, now: nat) returns (reply: Reply)
      requires r.VerifyPasskey?
      modifies this
      ensures (View(), reply) == VerifyPasskeyStep(cfg, old(View()), r, now)
    {
      if !cfg.passkey {
        return Refused(NotConfigured);
      }
      if !Validates(cfg, View(), r.jti, r.readOk, now) {
        return Refused(BadToken);
      }
      if !issued[r.jti].mfa {
        return Refused(NotAChallenge);
      }
      if r.row !in users || users[r.row].id != issued[r.jti].userId {
        return Refused(NotFound);
      }
      var u := users[r.row];
      if !u.passkeyEnabled {
        return Refused(NotConfigured);
      }
      if !r.assertionOk {
        return Refused(BadCode);
      }
      var jti := Issue(r.row, u, now, Passkey, Some(r.jti), r.readOk, r.writeOk);
      return Token(jti);
    }

    method BeginMfa(username: string, secret: string, codes: seq<string>, made: bool, persistOk: bool)
      returns (reply: Reply)
      requires cfg.Valid()
      modifies this`users
      ensures forall now: nat ::
                (View(), reply) == Step(cfg, old(View()), Request.BeginMfa(username, secret, codes, made, persistOk), now)
    {
      if !cfg.mfa {
        return Refused(NotConfigured);
      }
      if username !in users {
        return Refused(NotFound);
      }
      if !made {
        return Refused(StoreFailed);
      }
      var u := users[username];
      u := u.(pendingTotp := Some(secret));
      u := u.(pendingRecovery := Some(codes));
      if !persistOk {
        return Refused(StoreFailed);
      }
      users := users[username := u];
      return Done;
    }

    /** The pending enrolment becomes the user's second factor once a code of it is shown. */
    method ConfirmMfa(username: string, code: string, persistOk: bool, now: nat) returns (reply: Reply)
      requires cfg.Valid()
      modifies this`users, this`used
      ensures (View(), reply) == ConfirmMfaStep(cfg, old(View()), username, code, persistOk, now)
    {
      if !cfg.mfa {
        return Refused(NotConfigured);
      }
      if username !in users || users[username].pendingTotp.None? {
        return Refused(NotFound);
      }
      var u := users[username];
      var good := Totp.Verifies(cfg.totp, used, u.pendingTotp.value, code, now);
      used := Totp.AfterVerify(cfg.totp, used, u.pendingTotp.value, code, now);
      if !good {
        return Refused(BadCode);
      }
      u := u.(totp := u.pendingTotp);
      if u.pendingRecovery.Some? {
        u := u.(recovery := u.pendingRecovery);
      }
      u := u.(pendingTotp := None, pendingRecovery := None);
      u := u.(mfaEnabled := true);
      if !persistOk {
        return Refused(StoreFailed);
      }
      users := users[username := u];
      return Done;
    }

    method DisableMfa(username: string, persistOk: bool) returns (reply: Reply)
      requires cfg.Valid()
      modifies this`users
      ensures forall now: nat ::
                (View(), reply) == Step(cfg, old(View()), Request.DisableMfa(username, persistOk), now)
    {
      if username !in users {
        return Refused(NotFound);
      }
      var u := users[username];
      u := u.(totp := None);
      u := u.(recovery := None);
      u := u.(mfaEnabled := false);
      if !persistOk {
        return Refused(StoreFailed);
      }
      users := users[username := u];
      return Done;
    }

    /** Inserts or refreshes the account, keeping its second factors, and then asks for one if the
        identity provider did not. */
    method SsoLogin(username: string, id: string, amrMfa: bool, now: nat) returns (reply: Reply)
      modifies this
      ensures (View(), reply) == SsoLoginStep(cfg, old(View()), username, id, amrMfa, now)
    {
      if username == "" {
        return Refused(InvalidCredentials);
      }
      var u := FreshUser(id);
      if username in users {
        u := users[username].(enabled := true);
      } else if exists k | k in users :: users[k].id == id {
        return Refused(StoreFailed);
      }
      users := users[username := u];
      var jti: nat;
      if !amrMfa && u.MfaRequired() {
        jti := SignMfaTempToken(username, u, now);
      } else {
        jti := Issue(username, u, now, Idp(amrMfa), None, true, true);
      }
      return Token(jti);
    }
  }
}
