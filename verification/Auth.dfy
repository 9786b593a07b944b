/** Sign-in, second factors and tokens of backend/internal/auth (auth.go, sso.go, mfa.go) with the
    failure counter of backend/internal/storage/enterprise.go. Each handler call is one step with
    one clock reading. Signatures are unforgeable and token ids fresh: a token is its id, and only
    ids that were issued validate. Password hashing and the WebAuthn check are parameters. */
module Auth {
  import opened Base
  import Totp

  const SECOND := 1_000_000_000

  datatype User = User(
    id: string, hash: string, enabled: bool,
    mfaEnabled: bool, mfaEnforced: bool, passkeyEnabled: bool,
    totp: Option<string>, recovery: Option<seq<string>>,
    pendingTotp: Option<string>, pendingRecovery: Option<seq<string>>,
    loginFails: int, lockedUntil: Option<int>
  ) {
    predicate MfaRequired() { mfaEnabled || mfaEnforced }
  }

  /** What a signed token says; `mfa` marks the scope of a pending second factor. */
  datatype Claims = Claims(userId: string, username: string, mfa: bool, expires: int)

  datatype Config = Config(
    maxFails: int, lockSec: int, ttl: nat, mfaTtl: nat,
    mfa: bool, passkey: bool, revokeAdd: bool, revokedCheck: bool,
    totp: Totp.Config, matches: (string, string) -> bool
  ) {
    predicate Valid() { totp.Valid() }
    function LockTicks(): int { lockSec * SECOND }
  }

  datatype Factor = Password | Idp(mfa: bool) | TotpCode | RecoveryCode | Passkey

  /** What has happened: a first factor passed and answered with temporary token `jti`, or a session
      issued, with the temporary token it consumed if any and the outcome of the two blacklist calls. */
  datatype Entry =
    | FirstFactor(username: string, jti: nat)
    | Session(username: string, jti: nat, factor: Factor, required: bool,
              via: Option<nat>, readOk: bool, writeOk: bool)

  datatype World = World(
    users: map<string, User>, blacklist: set<nat>, used: Totp.Used,
    issued: map<nat, Claims>, nextJti: nat, log: seq<Entry>
  )

  datatype Refusal = InvalidCredentials | Locked | Disabled | UseSso | BadToken | NotAChallenge
                   | BadCode | NotFound | NotConfigured | StoreFailed

  datatype Reply = Refused(why: Refusal) | Token(jti: nat) | Done

  /** One handler call. The `...Ok` flags are the outcomes of database calls whose errors the code
      swallows or reports, `made` that of drawing and encrypting new secrets; `row` is the user row a lookup by id returns. */
  datatype Request =
    | Login(username: string, password: string, recordOk: bool)
    | VerifyMfa(jti: nat, code: string, readOk: bool, writeOk: bool, recordOk: bool, persistOk: bool)
    | VerifyPasskey(jti: nat, row: string, assertionOk: bool, readOk: bool, writeOk: bool)
    | SsoLogin(username: string, id: string, amrMfa: bool)
    | BeginMfa(username: string, secret: string, codes: seq<string>, made: bool, persistOk: bool)
    | ConfirmMfa(username: string, code: string, persistOk: bool)
    | DisableMfa(username: string, persistOk: bool)
    | EditUser(username: string, hash: string, enabled: bool, enforced: bool, passkey: bool)
    | Revoke(jti: nat)
    | SweepUsed(seen: nat)  // the background sweep, with the clock reading it works with

  function Unix(t: nat): nat { t / SECOND }

  // ---- the failure counter ----

  function RecordFailure(cfg: Config, u: User, now: int): User {
    if cfg.maxFails > 0 && u.loginFails + 1 >= cfg.maxFails
    then u.(loginFails := 0, lockedUntil := Some(now + cfg.LockTicks()))
    else u.(loginFails := u.loginFails + 1)
  }

  predicate Locks(cfg: Config, u: User) {
    cfg.maxFails > 0 && u.loginFails + 1 >= cfg.maxFails
  }

  function ClearFailures(u: User): User {
    u.(loginFails := 0, lockedUntil := None)
  }

  /** The world after the store was asked to count a failure, which works unless the database fails or
      has no such user. */
  function Counted(cfg: Config, w: World, username: string, ok: bool, now: int): World {
    if ok && username in w.users
    then w.(users := w.users[username := RecordFailure(cfg, w.users[username], now)])
    else w
  }

  /** The world after a failed attempt: without a limit the manager does not ask. */
  function Recorded(cfg: Config, w: World, username: string, ok: bool, now: int): World {
    if cfg.maxFails > 0 then Counted(cfg, w, username, ok, now) else w
  }

  /** Why a failed attempt is refused: the one that fills the counter reports the lock. */
  function FailureReply(cfg: Config, w: World, username: string, ok: bool, otherwise: Refusal): Reply {
    if cfg.maxFails > 0 && ok && username in w.users && Locks(cfg, w.users[username])
    then Refused(Locked) else Refused(otherwise)
  }

  // ---- tokens ----

  function Sign(w: World, username: string, u: User, mfa: bool, expires: int): World {
    w.(issued := w.issued[w.nextJti := Claims(u.id, username, mfa, expires)], nextJti := w.nextJti + 1)
  }

  function Challenge(cfg: Config, w: World, username: string, u: User, now: nat): World {
    Sign(w, username, u, true, Unix(now + cfg.mfaTtl))
    .(log := w.log + [FirstFactor(username, w.nextJti)])
  }

  function Grant(cfg: Config, w: World, username: string, u: User, now: nat, factor: Factor,
                 via: Option<nat>, readOk: bool, writeOk: bool): World {
    Sign(w, username, u, false, Unix(now + cfg.ttl))
    .(log := w.log + [Session(username, w.nextJti, factor, u.MfaRequired(), via, readOk, writeOk)],
      blacklist := if cfg.revokeAdd && via.Some? && writeOk then w.blacklist + {via.value} else w.blacklist)
  }

  /** A token validates when it was issued, has not expired and is not found revoked; a failing
      blacklist lookup counts as not revoked. */
  predicate Validates(cfg: Config, w: World, jti: nat, readOk: bool, now: nat) {
    && jti in w.issued
    && !(w.issued[jti].expires > 0 && Unix(now) > w.issued[jti].expires)
    && !(cfg.revokedCheck && readOk && jti in w.blacklist)
  }

  /** The request middleware: a valid token, but never one that still owes a second factor. */
  predicate Admits(cfg: Config, w: World, jti: nat, readOk: bool, now: nat) {
    Validates(cfg, w, jti, readOk, now) && !w.issued[jti].mfa
  }

  // ---- recovery codes ----

  function IndexOf(codes: seq<string>, code: string): (i: nat)
    ensures i <= |codes| && (i < |codes| ==> codes[i] == code)
    ensures i == |codes| <==> code !in codes
  {
    if codes == [] || codes[0] == code then 0 else 1 + IndexOf(codes[1..], code)
  }

  /** The codes left after the first occurrence of `code` is spent; none left is stored as nothing. */
  function Spend(codes: seq<string>, code: string): Option<seq<string>> {
    var i := IndexOf(codes, code);
    var left := if i < |codes| then codes[..i] + codes[i + 1..] else codes;
    if left == [] then None else Some(left)
  }

  predicate HasCode(recovery: Option<seq<string>>, code: string) {
    recovery.Some? && code in recovery.value
  }

  // ---- the handlers ----

  function LoginStep(cfg: Config, w: World, username: string, password: string, recordOk: bool, now: nat): (World, Reply) {
    if username !in w.users then (w, Refused(InvalidCredentials))
    else
      var u := w.users[username];
      if cfg.maxFails > 0 && u.lockedUntil.Some? && now < u.lockedUntil.value then (w, Refused(Locked))
      else if !u.enabled then (w, Refused(Disabled))
      else if u.hash == "" then (w, Refused(UseSso))
      else if !cfg.matches(u.hash, password) then
        (Recorded(cfg, w, username, recordOk, now), FailureReply(cfg, w, username, recordOk, InvalidCredentials))
      else
        var v := if cfg.maxFails > 0 && recordOk then w.(users := w.users[username := ClearFailures(u)]) else w;
        if u.MfaRequired() || (cfg.passkey && u.passkeyEnabled)
        then (Challenge(cfg, v, username, u, now), Token(w.nextJti))
        else (Grant(cfg, v, username, u, now, Password, None, true, true), Token(w.nextJti))
  }

  function VerifyMfaStep(cfg: Config, w: World, r: Request, now: nat): (World, Reply)
    requires cfg.Valid() && r.VerifyMfa?
  {
    if !cfg.mfa then (w, Refused(NotConfigured))
    else if !Validates(cfg, w, r.jti, r.readOk, now) then (w, Refused(BadToken))
    else
      var c := w.issued[r.jti];
      if !c.mfa then (w, Refused(NotAChallenge))
      else if Unix(now) > c.expires then (w, Refused(BadToken))
      else if c.username !in w.users then (w, Refused(NotFound))
      else
        var u := w.users[c.username];
        var v := if u.totp.Some? then w.(used := Totp.AfterVerify(cfg.totp, w.used, u.totp.value, r.code, now)) else w;
        if u.totp.Some? && Totp.Verifies(cfg.totp, w.used, u.totp.value, r.code, now)
        then (Grant(cfg, v, c.username, u, now, TotpCode, Some(r.jti), r.readOk, r.writeOk), Token(w.nextJti))
        else if HasCode(u.recovery, r.code) then
          if !r.persistOk then (v, Refused(StoreFailed))
          else
            var x := v.(users := w.users[c.username := u.(recovery := Spend(u.recovery.value, r.code))]);
            (Grant(cfg, x, c.username, u, now, RecoveryCode, Some(r.jti), r.readOk, r.writeOk), Token(w.nextJti))
        else (Recorded(cfg, v, c.username, r.recordOk, now), FailureReply(cfg, w, c.username, r.recordOk, BadCode))
  }

  function VerifyPasskeyStep(cfg: Config, w: World, r: Request, now: nat): (World, Reply)
    requires r.VerifyPasskey?
  {
    if !cfg.passkey then (w, Refused(NotConfigured))
    else if !Validates(cfg, w, r.jti, r.readOk, now) then (w, Refused(BadToken))
    else
      var c := w.issued[r.jti];
      if !c.mfa then (w, Refused(NotAChallenge))
      else if r.row !in w.users || w.users[r.row].id != c.userId then (w, Refused(NotFound))
      else
        var u := w.users[r.row];
        if !u.passkeyEnabled then (w, Refused(NotConfigured))
        else if !r.assertionOk then (w, Refused(BadCode))
        else (Grant(cfg, w, r.row, u, now, Passkey, Some(r.jti), r.readOk, r.writeOk), Token(w.nextJti))
  }

  function FreshUser(id: string): User {
    User(id, "", true, false, false, false, None, None, None, None, 0, None)
  }

  function SsoLoginStep(cfg: Config, w: World, username: string, id: string, amrMfa: bool, now: nat): (World, Reply) {
    if username == "" then (w, Refused(InvalidCredentials))
    else if username !in w.users && exists k :: k in w.users && w.users[k].id == id then (w, Refused(StoreFailed))
    else
      var u := if username in w.users then w.users[username].(enabled := true) else FreshUser(id);
      var v := w.(users := w.users[username := u]);
      if !amrMfa && u.MfaRequired()
      then (Challenge(cfg, v, username, u, now), Token(w.nextJti))
      else (Grant(cfg, v, username, u, now, Idp(amrMfa), None, true, true), Token(w.nextJti))
  }

  function ConfirmMfaStep(cfg: Config, w: World, username: string, code: string, persistOk: bool, now: nat): (World, Reply)
    requires cfg.Valid()
  {
    if !cfg.mfa then (w, Refused(NotConfigured))
    else if username !in w.users then (w, Refused(NotFound))
    else
      var u := w.users[username];
      if u.pendingTotp.None? then (w, Refused(NotFound))
      else
        var v := w.(used := Totp.AfterVerify(cfg.totp, w.used, u.pendingTotp.value, code, now));
        if !Totp.Verifies(cfg.totp, w.used, u.pendingTotp.value, code, now) then (v, Refused(BadCode))
        else if !persistOk then (v, Refused(StoreFailed))
        else
          (v.(users := w.users[username :=
             u.(totp := u.pendingTotp,
                recovery := if u.pendingRecovery.Some? then u.pendingRecovery else u.recovery,
                pendingTotp := None, pendingRecovery := None, mfaEnabled := true)]), Done)
  }

  function Update(w: World, username: string, u: User): World {
    w.(users := w.users[username := u])
  }

  function Step(cfg: Config, w: World, r: Request, now: nat): (World, Reply)
    requires cfg.Valid()
  {
    match r
    case Login(n, p, ok) => LoginStep(cfg, w, n, p, ok, now)
    case VerifyMfa(_, _, _, _, _, _) => VerifyMfaStep(cfg, w, r, now)
    case VerifyPasskey(_, _, _, _, _) => VerifyPasskeyStep(cfg, w, r, now)
    case SsoLogin(n, id, amr) => SsoLoginStep(cfg, w, n, id, amr, now)
    case BeginMfa(n, secret, codes, made, ok) =>
      if !cfg.mfa then (w, Refused(NotConfigured))
      else if n !in w.users then (w, Refused(NotFound))
      else if !made || !ok then (w, Refused(StoreFailed))
      else (Update(w, n, w.users[n].(pendingTotp := Some(secret), pendingRecovery := Some(codes))), Done)
    case ConfirmMfa(n, code, ok) => ConfirmMfaStep(cfg, w, n, code, ok, now)
    case DisableMfa(n, ok) =>
      if n !in w.users then (w, Refused(NotFound))
      else if !ok then (w, Refused(StoreFailed))
      else (Update(w, n, w.users[n].(totp := None, recovery := None, mfaEnabled := false)), Done)
    case EditUser(n, hash, enabled, enforced, passkey) =>
      if n !in w.users then (w, Refused(NotFound))
      else (Update(w, n, w.users[n].(hash := hash, enabled := enabled, mfaEnforced := enforced, passkeyEnabled := passkey)), Done)
    case Revoke(jti) => (if cfg.revokeAdd then w.(blacklist := w.blacklist + {jti}) else w, Done)
    case SweepUsed(seen) => (w.(used := Totp.Sweep(w.used, seen)), Done)
  }

  /** Whether the step compares a password of `username`. */
  predicate Compares(cfg: Config, w: World, r: Request, now: nat, username: string) {
    && r.Login? && r.username == username && username in w.users
    && var u := w.users[username];
       !(cfg.maxFails > 0 && u.lockedUntil.Some? && now < u.lockedUntil.value) && u.enabled && u.hash != ""
  }

  // ---- runs ----

  datatype Timed = Timed(request: Request, at: nat)

  /** Clock readings never decrease, and a sweep works with one no later than the moment it runs. */
  predicate Monotone(run: seq<Timed>, clock: nat) {
    run == [] || (
      && clock <= run[0].at
      && (run[0].request.SweepUsed? ==> run[0].request.seen <= run[0].at)
      && Monotone(run[1..], run[0].at))
  }

  function After(cfg: Config, w: World, run: seq<Timed>): World
    requires cfg.Valid()
    decreases |run|
  {
    if run == [] then w else After(cfg, Step(cfg, w, run[0].request, run[0].at).0, run[1..])
  }

  lemma {:induction false} AfterAppend(cfg: Config, w: World, a: seq<Timed>, b: seq<Timed>)
    requires cfg.Valid()
    ensures After(cfg, w, a + b) == After(cfg, After(cfg, w, a), b)
    decreases |a|
  {
    if a == [] {
      assert a + b == b;
    } else {
      hide Step;
      assert (a + b)[1..] == a[1..] + b;
      AfterAppend(cfg, Step(cfg, w, a[0].request, a[0].at).0, a[1..], b);
    }
  }

  /** The replies that a run gets, in order. */
  function Replies(cfg: Config, w: World, run: seq<Timed>): seq<Reply>
    requires cfg.Valid()
    decreases |run|
  {
    if run == [] then []
    else [Step(cfg, w, run[0].request, run[0].at).1] + Replies(cfg, Step(cfg, w, run[0].request, run[0].at).0, run[1..])
  }

  const EMPTY := World(map[], {}, map[], map[], 0, [])
}
