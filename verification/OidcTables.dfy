/** The nonce and PKCE-verifier tables of backend/internal/auth/oidc.go. Issuing, storing, consuming
    and the two lock sections of the background sweep interleave freely; each is one step with one
    reading of a clock that never goes back. */
module OidcTables {
  import opened Base

  /** The sweep's position: not running, its clock reading taken, or its first section done. */
  datatype Sweep = Off | Reading(now: int) | Half(now: int)

  datatype State = State(nonces: map<string, int>, verifiers: map<string, string>, sweep: Sweep)

  datatype Event =
    | Issue(nonce: string, at: int)
    | Consume(nonce: string, at: int)
    | StoreVerifier(nonce: string, verifier: string, at: int)
    | ConsumeVerifier(nonce: string, at: int)
    | SweepStart(at: int)
    | SweepNonces(at: int)
    | SweepVerifiers(at: int)

  const DEFAULT_NONCE_TTL := 600_000_000_000

  function EffectiveTtl(ttl: int): int {
    if ttl == 0 then DEFAULT_NONCE_TTL else ttl
  }

  predicate Enabled(s: State, e: Event) {
    match e
    case SweepStart(_) => s.sweep.Off?
    case SweepNonces(_) => s.sweep.Reading?
    case SweepVerifiers(_) => s.sweep.Half?
    case _ => true
  }

  function LiveNonces(nonces: map<string, int>, now: int): map<string, int> {
    map k | k in nonces && now <= nonces[k] :: nonces[k]
  }

  function LiveVerifiers(s: State, now: int): map<string, string> {
    map k | k in s.verifiers && k in s.nonces && now <= s.nonces[k] :: s.verifiers[k]
  }

  function Step(ttl: int, s: State, e: Event): State
    requires Enabled(s, e)
  {
    match e
    case Issue(n, at) => s.(nonces := s.nonces[n := at + EffectiveTtl(ttl)])
    case Consume(n, at) => s.(nonces := s.nonces - {n})
    case StoreVerifier(n, v, at) => s.(verifiers := s.verifiers[n := v])
    case ConsumeVerifier(n, at) => s.(verifiers := s.verifiers - {n})
    case SweepStart(at) => s.(sweep := Reading(at))
    case SweepNonces(at) => s.(nonces := LiveNonces(s.nonces, s.sweep.now), sweep := Half(s.sweep.now))
    case SweepVerifiers(at) => s.(verifiers := LiveVerifiers(s, s.sweep.now), sweep := Off)
  }

  /** What consuming a nonce answers. */
  predicate Accepts(s: State, nonce: string, at: int) {
    nonce in s.nonces && at <= s.nonces[nonce]
  }

  class OidcProvider {
    var nonceStore: map<string, int>
    var nonceTtl: int
    var pkceStore: map<string, string>

    function View(sweep: Sweep): State
      reads this
    {
      State(nonceStore, pkceStore, sweep)
    }

    constructor ()
      ensures View(Off) == State(map[], map[], Off) && nonceTtl == DEFAULT_NONCE_TTL
    {
      nonceStore, pkceStore, nonceTtl := map[], map[], DEFAULT_NONCE_TTL;
    }

    method StoreNonce(nonce: string, now: int, ghost sweep: Sweep)
      modifies this
      ensures View(sweep) == Step(old(nonceTtl), old(View(sweep)), Issue(nonce, now))
      ensures nonceTtl == EffectiveTtl(old(nonceTtl))
    {
      if nonceTtl == 0 {
        nonceTtl := DEFAULT_NONCE_TTL;
      }
      nonceStore := nonceStore[nonce := now + nonceTtl];
    }

    method ConsumeNonce(nonce: string, now: int, ghost sweep: Sweep) returns (ok: bool)
      modifies this`nonceStore
      ensures ok == Accepts(old(View(sweep)), nonce, now)
      ensures View(sweep) == Step(nonceTtl, old(View(sweep)), Consume(nonce, now))
    {
      if nonce !in nonceStore {
        return false;
      }
      var exp := nonceStore[nonce];
      nonceStore := nonceStore - {nonce};
      return now <= exp;
    }

    method StorePkce(nonce: string, verifier: string, now: int, ghost sweep: Sweep)
      modifies this`pkceStore
      ensures View(sweep) == Step(nonceTtl, old(View(sweep)), StoreVerifier(nonce, verifier, now))
    {
      pkceStore := pkceStore[nonce := verifier];
    }

    /** The empty string stands for no verifier. */
    method ConsumePkce(nonce: string, now: int, ghost sweep: Sweep) returns (verifier: string)
      modifies this`pkceStore
      ensures verifier == if nonce in old(pkceStore) then old(pkceStore)[nonce] else ""
      ensures View(sweep) == Step(nonceTtl, old(View(sweep)), ConsumeVerifier(nonce, now))
    {
      if nonce !in pkceStore {
        return "";
      }
      verifier := pkceStore[nonce];
      pkceStore := pkceStore - {nonce};
    }

    /** The sweep's first lock section, with the clock reading taken before it. */
    method SweepNonceTable(now: int, at: int)
      modifies this`nonceStore
      ensures View(Half(now)) == Step(nonceTtl, old(View(Reading(now))), Event.SweepNonces(at))
    {
      var todo := nonceStore.Keys;
      while todo != {}
        invariant todo <= old(nonceStore).Keys
        invariant nonceStore == map k | k in old(nonceStore) && (k in todo || now <= old(nonceStore)[k]) :: old(nonceStore)[k]
        decreases todo
      {
        var k :| k in todo;
        if now > nonceStore[k] {
          nonceStore := nonceStore - {k};
        }
        todo := todo - {k};
      }
    }

    /** The second lock section, with the same reading. */
    method SweepVerifierTable(now: int, at: int)
      modifies this`pkceStore
      ensures View(Off) == Step(nonceTtl, old(View(Half(now))), Event.SweepVerifiers(at))
    {
      var todo := pkceStore.Keys;
      while todo != {}
        invariant todo <= old(pkceStore).Keys
        invariant pkceStore == map k | k in old(pkceStore)
                                       && (k in todo || (k in nonceStore && now <= nonceStore[k])) :: old(pkceStore)[k]
        decreases todo
      {
        var k :| k in todo;
        if k !in nonceStore || now > nonceStore[k] {
          pkceStore := pkceStore - {k};
        }
        todo := todo - {k};
      }
    }
  }

  // ---- runs ----

  ghost predicate Valid(ttl: int, hist: seq<Event>)
    decreases |hist|, 0
  {
    hist == [] ||
    var init, e := hist[..|hist| - 1], hist[|hist| - 1];
    && Valid(ttl, init)
    && (init != [] ==> init[|init| - 1].at <= e.at)
    && Enabled(After(ttl, init), e)
  }

  ghost function After(ttl: int, hist: seq<Event>): State
    requires Valid(ttl, hist)
    decreases |hist|, 1
  {
    if hist == [] then State(map[], map[], Off)
    else Step(ttl, After(ttl, hist[..|hist| - 1]), hist[|hist| - 1])
  }

  /** When the nonce's last issue lapses, unless it has been presented since: what the history says. */
  function Outstanding(ttl: int, hist: seq<Event>, n: string): Option<int> {
    if hist == [] then None
    else
      var e := hist[|hist| - 1];
      if e.Issue? && e.nonce == n then Some(e.at + EffectiveTtl(ttl))
      else if e.Consume? && e.nonce == n then None
      else Outstanding(ttl, hist[..|hist| - 1], n)
  }

  /** The verifier last stored for the nonce and not taken out since. */
  function LastStored(hist: seq<Event>, n: string): Option<string> {
    if hist == [] then None
    else
      var e := hist[|hist| - 1];
      if e.StoreVerifier? && e.nonce == n then Some(e.verifier)
      else if e.ConsumeVerifier? && e.nonce == n then None
      else LastStored(hist[..|hist| - 1], n)
  }

  /** The verifier stored while the nonce was outstanding and unexpired, with neither taken since. */
  function Guarded(ttl: int, hist: seq<Event>, n: string): Option<string> {
    if hist == [] then None
    else
      var e, init := hist[|hist| - 1], hist[..|hist| - 1];
      match e
      case StoreVerifier(k, v, at) =>
        if k != n then Guarded(ttl, init, n)
        else
          var out := Outstanding(ttl, init, n);
          if out.Some? && at <= out.value then Some(v) else None
      case Issue(k, _) => if k == n then None else Guarded(ttl, init, n)
      case Consume(k, _) => if k == n then None else Guarded(ttl, init, n)
      case ConsumeVerifier(k, _) => if k == n then None else Guarded(ttl, init, n)
      case _ => Guarded(ttl, init, n)
  }

  /** The tables agree with the history on everything not yet lapsed at `clock`. */
  ghost predicate Agrees(ttl: int, hist: seq<Event>, clock: int)
    requires Valid(ttl, hist)
  {
    var s := After(ttl, hist);
    NoncesAgree(ttl, hist, s, clock) && StoredAgree(hist, s) && GuardedAgree(ttl, hist, s, clock)
  }

  ghost predicate NoncesAgree(ttl: int, hist: seq<Event>, s: State, clock: int) {
    && (!s.sweep.Off? ==> s.sweep.now <= clock)
    && (forall n | n in s.nonces :: Outstanding(ttl, hist, n) == Some(s.nonces[n]))
    && (forall n :: var out := Outstanding(ttl, hist, n);
          out.Some? && clock <= out.value ==> n in s.nonces)
  }

  ghost predicate StoredAgree(hist: seq<Event>, s: State) {
    forall n | n in s.verifiers :: LastStored(hist, n) == Some(s.verifiers[n])
  }

  ghost predicate GuardedAgree(ttl: int, hist: seq<Event>, s: State, clock: int) {
    forall n :: var out, g := Outstanding(ttl, hist, n), Guarded(ttl, hist, n);
      g.Some? && out.Some? && clock <= out.value ==> n in s.verifiers && s.verifiers[n] == g.value
  }

  lemma StepAgrees(ttl: int, hist: seq<Event>, clock: int)
    requires hist != [] && Valid(ttl, hist) && hist[|hist| - 1].at <= clock
    requires Agrees(ttl, hist[..|hist| - 1], hist[|hist| - 1].at)
    ensures Agrees(ttl, hist, clock)
  {
    var s := After(ttl, hist[..|hist| - 1]);
    StepAgreesOnNonces(ttl, hist, s, clock);
    StepAgreesOnStored(ttl, hist, s);
    StepAgreesOnGuarded(ttl, hist, s, clock);
    hide Step, NoncesAgree, StoredAgree, GuardedAgree, Enabled;
  }

  lemma StepAgreesOnNonces(ttl: int, hist: seq<Event>, s: State, clock: int)
    requires hist != [] && hist[|hist| - 1].at <= clock && Enabled(s, hist[|hist| - 1])
    requires NoncesAgree(ttl, hist[..|hist| - 1], s, hist[|hist| - 1].at)
    ensures NoncesAgree(ttl, hist, Step(ttl, s, hist[|hist| - 1]), clock)
  {
  }

  lemma StepAgreesOnStored(ttl: int, hist: seq<Event>, s: State)
    requires hist != [] && Enabled(s, hist[|hist| - 1]) && StoredAgree(hist[..|hist| - 1], s)
    ensures StoredAgree(hist, Step(ttl, s, hist[|hist| - 1]))
  {
  }

  lemma StepAgreesOnGuarded(ttl: int, hist: seq<Event>, s: State, clock: int)
    requires hist != [] && hist[|hist| - 1].at <= clock && Enabled(s, hist[|hist| - 1])
    requires NoncesAgree(ttl, hist[..|hist| - 1], s, hist[|hist| - 1].at)
    requires GuardedAgree(ttl, hist[..|hist| - 1], s, hist[|hist| - 1].at)
    ensures GuardedAgree(ttl, hist, Step(ttl, s, hist[|hist| - 1]), clock)
  {
  }

  lemma {:induction false} RunAgrees(ttl: int, hist: seq<Event>, clock: int)
    requires Valid(ttl, hist) && (hist != [] ==> hist[|hist| - 1].at <= clock)
    ensures Agrees(ttl, hist, clock)
    decreases |hist|
  {
    if hist != [] {
      var init, e := hist[..|hist| - 1], hist[|hist| - 1];
      RunAgrees(ttl, init, e.at);
      hide Agrees;
      StepAgrees(ttl, hist, clock);
    }
  }

  /** Presenting a nonce succeeds exactly when its last issue has not been presented before and has
      not lapsed, however the sweep's sections fall between: the sweep is invisible. */
  lemma NonceExact(ttl: int, hist: seq<Event>, n: string, at: int)
    requires Valid(ttl, hist) && (hist != [] ==> hist[|hist| - 1].at <= at)
    ensures Accepts(After(ttl, hist), n, at)
            <==> Outstanding(ttl, hist, n).Some? && at <= Outstanding(ttl, hist, n).value
  {
    RunAgrees(ttl, hist, at);
  }

  /** A verifier comes back only from the store it was last put in by, and does come back while the
      nonce it was stored under is still outstanding and unexpired. */
  lemma VerifierExact(ttl: int, hist: seq<Event>, n: string, at: int)
    requires Valid(ttl, hist) && (hist != [] ==> hist[|hist| - 1].at <= at)
    ensures var s := After(ttl, hist);
            && (n in s.verifiers ==> LastStored(hist, n) == Some(s.verifiers[n]))
            && (Accepts(s, n, at) && Guarded(ttl, hist, n).Some? ==> n in s.verifiers)
  {
    RunAgrees(ttl, hist, at);
  }

  // ---- exactly when a verifier is there ----

  /** The clock reading that the latest sweep works or worked with. */
  function LastReading(hist: seq<Event>): Option<int> {
    if hist == [] then None
    else
      var e := hist[|hist| - 1];
      if e.SweepStart? then Some(e.at) else LastReading(hist[..|hist| - 1])
  }

  /** At the latest sweep's reading the nonce had not been issued, had been presented or had lapsed. */
  predicate GoneOrLapsed(ttl: int, hist: seq<Event>, n: string) {
    var out, reading := Outstanding(ttl, hist, n), LastReading(hist);
    out.None? || (reading.Some? && reading.value > out.value)
  }

  /** The verifier last stored for the nonce, unless it has been taken out since or some sweep's second
      section has since come upon it with its nonce gone or lapsed. */
  function Held(ttl: int, hist: seq<Event>, n: string): Option<string> {
    if hist == [] then None
    else
      var e, init := hist[|hist| - 1], hist[..|hist| - 1];
      if e.StoreVerifier? && e.nonce == n then Some(e.verifier)
      else if e.ConsumeVerifier? && e.nonce == n then None
      else if e.SweepVerifiers? && GoneOrLapsed(ttl, init, n) then None
      else Held(ttl, init, n)
  }

  /** What the tables are at the latest reading: whatever has not lapsed by then is there, and the
      verifiers are the held ones. */
  ghost predicate AgreesAtReading(ttl: int, hist: seq<Event>, s: State) {
    && (s.sweep.Reading? || s.sweep.Half? ==> LastReading(hist) == Some(s.sweep.now))
    && (forall n | n in s.nonces :: Outstanding(ttl, hist, n) == Some(s.nonces[n]))
    && (forall n :: Outstanding(ttl, hist, n).Some? && !GoneOrLapsed(ttl, hist, n) ==> n in s.nonces)
  }

  ghost predicate HeldAgrees(ttl: int, hist: seq<Event>, s: State) {
    forall n :: Held(ttl, hist, n) == if n in s.verifiers then Some(s.verifiers[n]) else None
  }

  predicate ReadingBy(hist: seq<Event>, clock: int) {
    LastReading(hist).Some? ==> LastReading(hist).value <= clock
  }

  lemma StepAgreesAtReading(ttl: int, hist: seq<Event>, s: State)
    requires hist != [] && Enabled(s, hist[|hist| - 1]) && AgreesAtReading(ttl, hist[..|hist| - 1], s)
    requires ReadingBy(hist[..|hist| - 1], hist[|hist| - 1].at)
    ensures AgreesAtReading(ttl, hist, Step(ttl, s, hist[|hist| - 1]))
  {
  }

  lemma StepHolds(ttl: int, hist: seq<Event>, s: State)
    requires hist != [] && Enabled(s, hist[|hist| - 1])
    requires AgreesAtReading(ttl, hist[..|hist| - 1], s) && HeldAgrees(ttl, hist[..|hist| - 1], s)
    ensures HeldAgrees(ttl, hist, Step(ttl, s, hist[|hist| - 1]))
  {
  }

  lemma {:induction false} RunHolds(ttl: int, hist: seq<Event>, clock: int)
    requires Valid(ttl, hist) && (hist != [] ==> hist[|hist| - 1].at <= clock)
    ensures AgreesAtReading(ttl, hist, After(ttl, hist)) && HeldAgrees(ttl, hist, After(ttl, hist))
    ensures ReadingBy(hist, clock)
    decreases |hist|
  {
    if hist != [] {
      var init, e := hist[..|hist| - 1], hist[|hist| - 1];
      RunHolds(ttl, init, e.at);
      assert After(ttl, hist) == Step(ttl, After(ttl, init), e);
      hide Step, After, AgreesAtReading, HeldAgrees, Valid;
      StepAgreesAtReading(ttl, hist, After(ttl, init));
      StepHolds(ttl, hist, After(ttl, init));
    }
  }

  /** Under every interleaving a verifier is in the table, and is the one consuming it returns, exactly
      if it was stored, was not taken out since, and no sweep since came upon it with its nonce gone or
      lapsed at that sweep's reading. */
  lemma VerifierHeldExactly(ttl: int, hist: seq<Event>, n: string)
    requires Valid(ttl, hist)
    ensures Held(ttl, hist, n)
            == if n in After(ttl, hist).verifiers then Some(After(ttl, hist).verifiers[n]) else None
  {
    RunHolds(ttl, hist, if hist == [] then 0 else hist[|hist| - 1].at);
  }

  /** How often a nonce was issued, and how often presenting it succeeded. */
  function Issues(hist: seq<Event>, n: string): nat {
    if hist == [] then 0
    else Issues(hist[..|hist| - 1], n) + (if hist[|hist| - 1].Issue? && hist[|hist| - 1].nonce == n then 1 else 0)
  }

  ghost function Acceptances(ttl: int, hist: seq<Event>, n: string): nat
    requires Valid(ttl, hist)
    decreases |hist|
  {
    if hist == [] then 0
    else
      var init, e := hist[..|hist| - 1], hist[|hist| - 1];
      Acceptances(ttl, init, n)
      + (if e.Consume? && e.nonce == n && Accepts(After(ttl, init), n, e.at) then 1 else 0)
  }

  /** A nonce is accepted at most as often as it was issued: once, when nonces are fresh. */
  lemma {:induction false} NonceSingleUse(ttl: int, hist: seq<Event>, n: string)
    requires Valid(ttl, hist)
    ensures Acceptances(ttl, hist, n) + (if Outstanding(ttl, hist, n).Some? then 1 else 0) <= Issues(hist, n)
    decreases |hist|
  {
    if hist != [] {
      var init, e := hist[..|hist| - 1], hist[|hist| - 1];
      NonceSingleUse(ttl, init, n);
      NonceExact(ttl, init, n, e.at);
    }
  }

  function Stores(hist: seq<Event>, n: string): nat {
    if hist == [] then 0
    else Stores(hist[..|hist| - 1], n)
         + (if hist[|hist| - 1].StoreVerifier? && hist[|hist| - 1].nonce == n then 1 else 0)
  }

  ghost function Returns(ttl: int, hist: seq<Event>, n: string): nat
    requires Valid(ttl, hist)
    decreases |hist|
  {
    if hist == [] then 0
    else
      var init, e := hist[..|hist| - 1], hist[|hist| - 1];
      Returns(ttl, init, n)
      + (if e.ConsumeVerifier? && e.nonce == n && n in After(ttl, init).verifiers then 1 else 0)
  }

  /** A verifier is returned at most as often as one was stored for its nonce. */
  lemma {:induction false} VerifierSingleUse(ttl: int, hist: seq<Event>, n: string)
    requires Valid(ttl, hist)
    ensures Returns(ttl, hist, n) + (if LastStored(hist, n).Some? then 1 else 0) <= Stores(hist, n)
    decreases |hist|
  {
    if hist != [] {
      var init, e := hist[..|hist| - 1], hist[|hist| - 1];
      VerifierSingleUse(ttl, init, n);
      VerifierExact(ttl, init, n, e.at);
    }
  }

  /** Neither section of the sweep removes an unexpired nonce, nor a verifier whose nonce is still
      present and unexpired, at the moment it runs. */
  lemma SweepIsSafe(ttl: int, hist: seq<Event>, n: string)
    requires Valid(ttl, hist) && hist != []
    requires hist[|hist| - 1].SweepNonces? || hist[|hist| - 1].SweepVerifiers?
    ensures var before, after := After(ttl, hist[..|hist| - 1]), After(ttl, hist);
            Accepts(before, n, hist[|hist| - 1].at) ==>
              && Accepts(after, n, hist[|hist| - 1].at)
              && (n in before.verifiers ==> n in after.verifiers && after.verifiers[n] == before.verifiers[n])
  {
    RunAgrees(ttl, hist[..|hist| - 1], hist[|hist| - 1].at);
  }

  // ---- the history, event by event ----

  /** The i-th event issued the nonce, and it was neither issued again nor presented since. */
  predicate LastIssuedAt(hist: seq<Event>, n: string, i: nat) {
    && i < |hist| && hist[i].Issue? && hist[i].nonce == n
    && forall j | i < j < |hist| :: (hist[j].Issue? || hist[j].Consume?) ==> hist[j].nonce != n
  }

  lemma {:induction false} OutstandingAt(ttl: int, hist: seq<Event>, n: string, i: nat)
    requires LastIssuedAt(hist, n, i)
    ensures Outstanding(ttl, hist, n) == Some(hist[i].at + (if ttl == 0 then 600_000_000_000 else ttl))
    decreases |hist|
  {
    var m := |hist| - 1;
    if i < m {
      assert forall j | 0 <= j < m :: hist[..m][j] == hist[j];
      OutstandingAt(ttl, hist[..m], n, i);
    }
  }

  lemma {:induction false} OutstandingSince(ttl: int, hist: seq<Event>, n: string) returns (i: nat)
    requires Outstanding(ttl, hist, n).Some?
    ensures LastIssuedAt(hist, n, i)
    decreases |hist|
  {
    var m := |hist| - 1;
    if hist[m].Issue? && hist[m].nonce == n {
      i := m;
    } else {
      i := OutstandingSince(ttl, hist[..m], n);
      assert forall j | 0 <= j < m :: hist[..m][j] == hist[j];
    }
  }

  /** Presenting a nonce at `at` succeeds exactly if some earlier request issued it, nobody issued or presented
      it since, and its lifetime, ten minutes unless another is set, is not over. */
  lemma NonceAcceptedExactly(ttl: int, hist: seq<Event>, n: string, at: int)
    requires Valid(ttl, hist) && (hist != [] ==> hist[|hist| - 1].at <= at)
    ensures Accepts(After(ttl, hist), n, at)
            <==> exists i: nat :: LastIssuedAt(hist, n, i)
                                  && at <= hist[i].at + (if ttl == 0 then 600_000_000_000 else ttl)
  {
    NonceExact(ttl, hist, n, at);
    hide Accepts, After, Outstanding, Valid;
    if Outstanding(ttl, hist, n).Some? {
      var i := OutstandingSince(ttl, hist, n);
      OutstandingAt(ttl, hist, n, i);
    }
    forall i: nat | LastIssuedAt(hist, n, i)
      ensures Outstanding(ttl, hist, n) == Some(hist[i].at + (if ttl == 0 then 600_000_000_000 else ttl))
    {
      OutstandingAt(ttl, hist, n, i);
    }
  }

  /** The nonce was issued, not presented since, and no sweep's first section has since come upon it lapsed. */
  predicate Kept(ttl: int, hist: seq<Event>, n: string) {
    if hist == [] then false
    else
      var e, init := hist[|hist| - 1], hist[..|hist| - 1];
      if e.Issue? && e.nonce == n then true
      else if e.Consume? && e.nonce == n then false
      else Kept(ttl, init, n) && !(e.SweepNonces? && LapsedAtReading(ttl, init, n))
  }

  predicate LapsedAtReading(ttl: int, hist: seq<Event>, n: string) {
    var out, reading := Outstanding(ttl, hist, n), LastReading(hist);
    out.Some? && reading.Some? && reading.value > out.value
  }

  ghost predicate KeptAgrees(ttl: int, hist: seq<Event>, s: State) {
    forall n :: n in s.nonces <==> Kept(ttl, hist, n)
  }

  lemma StepKeeps(ttl: int, hist: seq<Event>, s: State)
    requires hist != [] && Enabled(s, hist[|hist| - 1])
    requires AgreesAtReading(ttl, hist[..|hist| - 1], s) && KeptAgrees(ttl, hist[..|hist| - 1], s)
    ensures KeptAgrees(ttl, hist, Step(ttl, s, hist[|hist| - 1]))
  {
  }

  /** Under every interleaving a nonce is in the table exactly if it was issued, was not presented since, and
      no sweep since came upon it lapsed at that sweep's reading: lapsed nonces do not pile up. */
  lemma NonceKeptExactly(ttl: int, hist: seq<Event>, n: string)
    requires Valid(ttl, hist)
    ensures n in After(ttl, hist).nonces <==> Kept(ttl, hist, n)
  {
    RunKept(ttl, hist);
  }

  lemma {:induction false} RunKept(ttl: int, hist: seq<Event>)
    requires Valid(ttl, hist)
    ensures KeptAgrees(ttl, hist, After(ttl, hist))
    decreases |hist|
  {
    if hist != [] {
      var init, e := hist[..|hist| - 1], hist[|hist| - 1];
      RunKept(ttl, init);
      RunHolds(ttl, init, e.at);
      assert After(ttl, hist) == Step(ttl, After(ttl, init), e);
      hide Step, After, AgreesAtReading, HeldAgrees, KeptAgrees, Valid;
      StepKeeps(ttl, hist, After(ttl, init));
    }
  }
}
