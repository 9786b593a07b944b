/** How often a temporary token can be turned into a session: exactly what the blacklist holds after
    any run, and so exactly when a request that presents the token again is answered with a session. */
module MfaTokens {
  import opened Base
  import opened Auth
  import opened MfaProtocol
  import Totp

  /** Some session of the log consumed the token and got that written to the blacklist. */
  predicate ConsumedForGood(log: seq<Entry>, jti: nat) {
    exists k | 0 <= k < |log| :: Consumes(log[k], jti) && log[k].writeOk
  }

  /** The tokens that requests of the run revoked outright. */
  function Revoked(run: seq<Timed>): set<nat> {
    set e | e in run && e.request.Revoke? :: e.request.jti
  }

  /** The blacklist is exactly what was revoked or consumed for good, if it can be written at all. */
  ghost predicate Listed(cfg: Config, w: World, revoked: set<nat>) {
    forall j: nat :: j in w.blacklist <==> cfg.revokeAdd && (j in revoked || ConsumedForGood(w.log, j))
  }

  lemma StepKeepsListed(cfg: Config, w: World, v: World, r: Request, revoked: set<nat>)
    requires Listed(cfg, w, revoked) && ListsWhatItLogs(cfg, w, v, r)
    ensures Listed(cfg, v, revoked + RevokedBy(r))
  {
    if v.log != w.log {
      forall j: nat
        ensures ConsumedForGood(v.log, j) <==> ConsumedForGood(w.log, j) || j in WrittenBy(v.log[|w.log|])
      {
        ConsumedAppend(w.log, v.log, j);
      }
    }
    hide ConsumedForGood, WrittenBy;
  }

  lemma ConsumedAppend(log: seq<Entry>, more: seq<Entry>, j: nat)
    requires |more| == |log| + 1 && more[..|log|] == log
    ensures ConsumedForGood(more, j) <==> ConsumedForGood(log, j) || j in WrittenBy(more[|log|])
  {
    assert forall k | 0 <= k < |log| :: more[k] == more[..|log|][k] == log[k];
  }

  lemma {:induction false} RunKeepsListed(cfg: Config, w: World, run: seq<Timed>, revoked: set<nat>)
    requires cfg.Valid() && Listed(cfg, w, revoked)
    ensures Listed(cfg, After(cfg, w, run), revoked + Revoked(run))
    decreases |run|
  {
    if run == [] {
      assert revoked + Revoked(run) == revoked;
    } else {
      var r := run[0].request;
      var v := Step(cfg, w, r, run[0].at).0;
      StepLists(cfg, w, r, run[0].at);
      StepKeepsListed(cfg, w, v, r, revoked);
      assert revoked + RevokedBy(r) + Revoked(run[1..]) == revoked + Revoked(run) by {
        assert forall e :: e in run <==> e == run[0] || e in run[1..];
      }
      hide Listed, Step, ListsWhatItLogs, Revoked, RevokedBy;
      RunKeepsListed(cfg, v, run[1..], revoked + RevokedBy(r));
    }
  }

  /** After any run the blacklist holds a token exactly if it can be written and the token was revoked
      or some session that consumed it got its write through. */
  lemma BlacklistExact(cfg: Config, run: seq<Timed>, jti: nat)
    requires cfg.Valid()
    ensures var w := After(cfg, EMPTY, run);
            jti in w.blacklist <==> cfg.revokeAdd && (jti in Revoked(run) || ConsumedForGood(w.log, jti))
  {
    assert Listed(cfg, EMPTY, {});
    RunKeepsListed(cfg, EMPTY, run, {});
    assert {} + Revoked(run) == Revoked(run);
  }

  // ---- another session from the same token ----

  /** The token is a temporary one, was issued and has not expired. */
  predicate Pending(w: World, jti: nat, now: nat) {
    jti in w.issued && w.issued[jti].mfa && !(w.issued[jti].expires > 0 && Unix(now) > w.issued[jti].expires)
  }

  /** All that VerifyMFA asks for, but for the blacklist: a claimable one-time code, or a listed recovery
      code that can be spent. */
  predicate MfaInOrder(cfg: Config, w: World, r: Request, now: nat)
    requires cfg.Valid() && r.VerifyMfa?
  {
    && cfg.mfa && Pending(w, r.jti, now) && Unix(now) <= w.issued[r.jti].expires && w.issued[r.jti].username in w.users
    && var u := w.users[w.issued[r.jti].username];
       (u.totp.Some? && Totp.Verifies(cfg.totp, w.used, u.totp.value, r.code, now))
       || (HasCode(u.recovery, r.code) && r.persistOk)
  }

  /** All that VerifyPasskey asks for, but for the blacklist. */
  predicate PasskeyInOrder(cfg: Config, w: World, r: Request, now: nat)
    requires r.VerifyPasskey?
  {
    cfg.passkey && Pending(w, r.jti, now) && r.row in w.users && w.users[r.row].id == w.issued[r.jti].userId
    && w.users[r.row].passkeyEnabled && r.assertionOk
  }

  /** The blacklist does not stop the request: a hook is missing, the lookup fails, or nobody revoked
      the token and every session that consumed it lost its write. */
  predicate NotStopped(cfg: Config, run: seq<Timed>, r: Request)
    requires cfg.Valid() && (r.VerifyMfa? || r.VerifyPasskey?)
  {
    var log := After(cfg, EMPTY, run).log;
    !cfg.revokeAdd || !cfg.revokedCheck || !r.readOk
    || (r.jti !in Revoked(run) && forall k | 0 <= k < |log| :: Consumes(log[k], r.jti) ==> !log[k].writeOk)
  }

  lemma ValidatesExactly(cfg: Config, run: seq<Timed>, r: Request, now: nat)
    requires cfg.Valid() && (r.VerifyMfa? || r.VerifyPasskey?)
    ensures var w := After(cfg, EMPTY, run);
            Validates(cfg, w, r.jti, r.readOk, now) && w.issued[r.jti].mfa
            <==> Pending(w, r.jti, now) && NotStopped(cfg, run, r)
  {
    BlacklistExact(cfg, run, r.jti);
    hide After, Revoked;
  }

  /** After any run, presenting a temporary token with a one-time or recovery code is answered with a
      session exactly if the code is in order and the blacklist does not stop it. */
  lemma VerifyMfaAnswersExactly(cfg: Config, run: seq<Timed>, r: Request, now: nat)
    requires cfg.Valid() && r.VerifyMfa?
    ensures var w := After(cfg, EMPTY, run);
            VerifyMfaStep(cfg, w, r, now).1.Token? <==> MfaInOrder(cfg, w, r, now) && NotStopped(cfg, run, r)
  {
    ValidatesExactly(cfg, run, r, now);
    hide After, Validates, Pending, NotStopped, Totp.Verifies, Totp.AfterVerify, Spend, HasCode, RecordFailure, Locks;
    var w := After(cfg, EMPTY, run);
    PendingIsIssued(w, r.jti, now);
    ValidIsIssued(cfg, w, r.jti, r.readOk, now);
  }

  lemma PendingIsIssued(w: World, jti: nat, now: nat)
    ensures Pending(w, jti, now) ==> jti in w.issued && w.issued[jti].mfa
  {
  }

  lemma ValidIsIssued(cfg: Config, w: World, jti: nat, readOk: bool, now: nat)
    ensures Validates(cfg, w, jti, readOk, now) ==> jti in w.issued
  {
  }

  /** The same for a passkey. */
  lemma VerifyPasskeyAnswersExactly(cfg: Config, run: seq<Timed>, r: Request, now: nat)
    requires cfg.Valid() && r.VerifyPasskey?
    ensures var w := After(cfg, EMPTY, run);
            VerifyPasskeyStep(cfg, w, r, now).1.Token? <==> PasskeyInOrder(cfg, w, r, now) && NotStopped(cfg, run, r)
  {
    ValidatesExactly(cfg, run, r, now);
    hide After, Validates, Pending, NotStopped;
    var w := After(cfg, EMPTY, run);
    PendingIsIssued(w, r.jti, now);
    ValidIsIssued(cfg, w, r.jti, r.readOk, now);
  }

  /** A token that has already given a session gives another one, to a request with everything else in
      order, exactly if a blacklist hook is missing, the lookup fails, or no write of an earlier session
      of the token got through and nobody revoked it. The new session then consumes that token. */
  lemma AnotherSessionExactly(cfg: Config, run: seq<Timed>, r: Request, now: nat, i: nat)
    requires cfg.Valid() && (r.VerifyMfa? || r.VerifyPasskey?)
    requires i < |After(cfg, EMPTY, run).log| && Consumes(After(cfg, EMPTY, run).log[i], r.jti)
    requires if r.VerifyMfa? then MfaInOrder(cfg, After(cfg, EMPTY, run), r, now)
             else PasskeyInOrder(cfg, After(cfg, EMPTY, run), r, now)
    ensures var w := After(cfg, EMPTY, run);
            var v := Step(cfg, w, r, now).0;
            if NotStopped(cfg, run, r) then |v.log| == |w.log| + 1 && Consumes(v.log[|w.log|], r.jti)
            else v == w
  {
    var w := After(cfg, EMPTY, run);
    ValidatesExactly(cfg, run, r, now);
    hide After, Validates, NotStopped, Totp.Verifies, Totp.AfterVerify, Spend, HasCode, RecordFailure, Locks;
    ValidIsIssued(cfg, w, r.jti, r.readOk, now);
  }

  /** In any run, two sessions from one temporary token mean that a hook is missing, the second one's
      lookup failed or the first one's write was lost. */
  lemma OneSessionPerToken(cfg: Config, run: seq<Timed>, i: nat, k: nat, jti: nat)
    requires cfg.Valid() && i < k < |After(cfg, EMPTY, run).log|
    requires Consumes(After(cfg, EMPTY, run).log[i], jti) && Consumes(After(cfg, EMPTY, run).log[k], jti)
    ensures !cfg.revokeAdd || !cfg.revokedCheck
            || !After(cfg, EMPTY, run).log[i].writeOk || !After(cfg, EMPTY, run).log[k].readOk
  {
    RunKeepsInv(cfg, EMPTY, run);
    hide LogInv, UserInv, After;
  }

  // ---- both causes at an input ----

  /** A user signs in over the identity provider, gets a passkey and an enforced second factor, and signs
      in again: the answer is temporary token 1. */
  const SETUP := [Timed(SsoLogin("ann", "id", false), 0), Timed(EditUser("ann", "", true, true, true), 0),
                  Timed(SsoLogin("ann", "id", false), 0)]

  function Present(readOk: bool, writeOk: bool): Request {
    VerifyPasskey(1, "ann", true, readOk, writeOk)
  }

  function TwicePresented(writeOk: bool, readOk: bool): seq<Timed> {
    SETUP + [Timed(Present(true, writeOk), 0), Timed(Present(readOk, true), 0)]
  }

  predicate SetUp(w: World) {
    && |w.log| == 2 && w.blacklist == {} && w.nextJti == 2
    && "ann" in w.users && w.users["ann"].id == "id" && w.users["ann"].passkeyEnabled
    && 1 in w.issued && w.issued[1].mfa && w.issued[1].userId == "id" && w.issued[1].expires >= 0
  }

  lemma SetupDone(cfg: Config)
    requires cfg.Valid()
    ensures SetUp(After(cfg, EMPTY, SETUP))
  {
    var a, b, c := SETUP[0], SETUP[1], SETUP[2];
    assert SETUP[1..] == [b, c] && [b, c][1..] == [c] && [c][1..] == [];
    var w1 := Step(cfg, EMPTY, a.request, 0).0;
    var w2 := Step(cfg, w1, b.request, 0).0;
    assert w1.users.Keys == {"ann"} && |w1.log| == 1 && w1.nextJti == 1 && w1.issued.Keys == {0};
    assert w2.users["ann"].passkeyEnabled && w2.users["ann"].MfaRequired() && w2.users["ann"].id == "id";
    assert After(cfg, w2, [c]) == Step(cfg, w2, c.request, 0).0;
    assert After(cfg, w1, [b, c]) == After(cfg, w2, [c]);
  }

  /** What one presentation does to a world with the token still pending. */
  lemma Presented(cfg: Config, w: World, readOk: bool, writeOk: bool)
    requires cfg.Valid() && cfg.passkey && w.nextJti >= 2
    requires "ann" in w.users && w.users["ann"].id == "id" && w.users["ann"].passkeyEnabled
    requires 1 in w.issued && w.issued[1].mfa && w.issued[1].userId == "id" && w.issued[1].expires >= 0
    ensures var v := Step(cfg, w, Present(readOk, writeOk), 0).0;
            if cfg.revokedCheck && readOk && 1 in w.blacklist then v == w
            else |v.log| == |w.log| + 1 && v.log[..|w.log|] == w.log && Consumes(v.log[|w.log|], 1)
                 && v.users == w.users && v.nextJti >= 2 && 1 in v.issued && v.issued[1] == w.issued[1]
                 && v.blacklist == w.blacklist + (if cfg.revokeAdd && writeOk then {1} else {})
  {
  }

  /** The token is presented twice at the same tick. The second presentation is answered with a second
      session exactly if a hook is missing, the write of the first session was lost or the lookup of
      the second one fails, so each cause suffices. */
  lemma ReplayedExactly(cfg: Config, writeOk: bool, readOk: bool)
    requires cfg.Valid() && cfg.passkey
    ensures var run := TwicePresented(writeOk, readOk);
            var log := After(cfg, EMPTY, run).log;
            && Monotone(run, 0) && 3 <= |log| <= 4 && Consumes(log[2], 1)
            && ((|log| == 4 && Consumes(log[3], 1)) <==> !cfg.revokeAdd || !cfg.revokedCheck || !writeOk || !readOk)
  {
    var a, b := Timed(Present(true, writeOk), 0), Timed(Present(readOk, true), 0);
    var w3 := After(cfg, EMPTY, SETUP);
    var w4 := Step(cfg, w3, a.request, 0).0;
    SetupDone(cfg);
    AfterAppend(cfg, EMPTY, SETUP, [a, b]);
    Presented(cfg, w3, true, writeOk);
    Presented(cfg, w4, readOk, true);
    assert [a, b][1..] == [b] && [b][1..] == [];
    AllAtZero(TwicePresented(writeOk, readOk));
    hide Step, Monotone;
    assert After(cfg, w4, [b]) == Step(cfg, w4, b.request, 0).0;
    assert After(cfg, w3, [a, b]) == After(cfg, w4, [b]);
  }

  lemma {:induction false} AllAtZero(run: seq<Timed>)
    requires forall e | e in run :: e.at == 0 && !e.request.SweepUsed?
    ensures Monotone(run, 0)
    decreases |run|
  {
    if run != [] {
      assert run[0] in run && forall e | e in run[1..] :: e in run;
      AllAtZero(run[1..]);
    }
  }

  /** A lost write replays a token. */
  lemma LostWriteReplays(cfg: Config)
    requires cfg.Valid() && cfg.passkey
    ensures var log := After(cfg, EMPTY, TwicePresented(false, true)).log;
            |log| == 4 && Consumes(log[2], 1) && Consumes(log[3], 1)
  {
    ReplayedExactly(cfg, false, true);
  }

  /** So does a failing lookup. */
  lemma FailedLookupReplays(cfg: Config)
    requires cfg.Valid() && cfg.passkey
    ensures var log := After(cfg, EMPTY, TwicePresented(true, false)).log;
            |log| == 4 && Consumes(log[2], 1) && Consumes(log[3], 1)
  {
    ReplayedExactly(cfg, true, false);
  }
}
