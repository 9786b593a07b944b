/** The retry-on-conflict wrappers around a transaction: `retryTx` of
    backend/internal/storage/enterprise.go (10 attempts) and of storage/llm.go (5 attempts), and the
    failure recorder that runs inside the first. What each attempt comes to is given by a function
    of its number. */
module RetryTx {

  /** The error a rolled-back transaction reports, as the wrappers classify it. */
  datatype TxError = LimitExceeded | RecordNotFound | LockConflict | Other

  datatype Outcome = Committed | RolledBack(err: TxError)

  /** nil, an error passed through, or the error of the last of too many conflicting attempts. */
  datatype Result = Nil | Failed(err: TxError) | Exhausted(err: TxError)

  predicate Conflicting(o: Outcome) { o.RolledBack? && o.err.LockConflict? }

  /** The number of the first attempt from `k` on that does not conflict, or of the last one. */
  function LastAttempt(attempts: nat -> Outcome, k: nat, max: nat): (n: nat)
    requires k < max
    ensures k <= n < max
    ensures forall i | k <= i < n :: Conflicting(attempts(i))
    ensures n < max - 1 ==> !Conflicting(attempts(n))
    decreases max - k
  {
    if k == max - 1 || !Conflicting(attempts(k)) then k else LastAttempt(attempts, k + 1, max)
  }

  lemma LastAttemptIs(attempts: nat -> Outcome, k: nat, max: nat)
    requires k < max
    ensures LastAttempt(attempts, k, max)
            == if k == max - 1 || !Conflicting(attempts(k)) then k else LastAttempt(attempts, k + 1, max)
  {
  }

  function Answer(o: Outcome): Result {
    match o
    case Committed => Nil
    case RolledBack(LockConflict) => Exhausted(LockConflict)
    case RolledBack(e) => Failed(e)
  }

  /** How many of the first `n` attempts committed. */
  function Commits(attempts: nat -> Outcome, n: nat): nat {
    if n == 0 then 0 else Commits(attempts, n - 1) + (if attempts(n - 1).Committed? then 1 else 0)
  }

  function Pow2(k: nat): nat {
    if k == 0 then 1 else 2 * Pow2(k - 1)
  }

  /** Milliseconds that the pause after attempt `k` cannot exceed. */
  function Backoff(k: nat): nat {
    if 5 * Pow2(k) > 800 then 800 else 5 * Pow2(k)
  }

  /** The storage wrapper. `jitter` is the random part of each pause, in milliseconds. */
  method RetryStorage(attempts: nat -> Outcome, jitter: nat -> nat) returns (r: Result, tries: nat, slept: nat)
    ensures tries == LastAttempt(attempts, 0, 10) + 1
    ensures r == Answer(attempts(tries - 1))
    ensures slept <= 2075
  {
    hide LastAttempt;
    var last := RolledBack(Other);
    tries, slept := 0, 0;
    ghost var cap := 0;
    for attempt := 0 to 10
      invariant tries == attempt
      invariant attempt < 10 ==> LastAttempt(attempts, 0, 10) == LastAttempt(attempts, attempt, 10)
      invariant attempt < 10
      invariant slept <= cap == TotalBackoff(attempt)
    {
      last := attempts(attempt);
      LastAttemptIs(attempts, attempt, 10);
      tries := tries + 1;
      if last.Committed? {
        BackoffBound(attempt);
        return Nil, tries, slept;
      }
      if last.err.LimitExceeded? || last.err.RecordNotFound? {
        BackoffBound(attempt);
        return Failed(last.err), tries, slept;
      }
      if !last.err.LockConflict? {
        BackoffBound(attempt);
        return Failed(last.err), tries, slept;
      }
      if attempt == 9 {
        break;
      }
      var backoff := Backoff(attempt);
      slept := slept + backoff / 2 + jitter(attempt) % (backoff / 2 + 1);
      cap := cap + backoff;
    }
    BackoffBound(9);
    r := Exhausted(last.err);
  }

  function TotalBackoff(n: nat): nat {
    if n == 0 then 0 else TotalBackoff(n - 1) + Backoff(n - 1)
  }

  lemma BackoffBound(n: nat)
    requires n <= 9
    ensures TotalBackoff(n) <= 2075
  {
    TotalMonotone(n, 9);
    assert Pow2(3) == 8 && Pow2(6) == 64 && Pow2(8) == 256;
    assert TotalBackoff(3) == 35;
    assert TotalBackoff(6) == 315;
    assert TotalBackoff(9) == 2075;
  }

  lemma {:induction false} TotalMonotone(n: nat, m: nat)
    requires n <= m
    ensures TotalBackoff(n) <= TotalBackoff(m)
  {
    if n < m {
      TotalMonotone(n, m - 1);
    }
  }

  /** The token-quota wrapper: the same loop, five attempts, with the last error passed through. */
  method RetryLlm(attempts: nat -> Outcome) returns (r: Result, tries: nat)
    ensures tries == LastAttempt(attempts, 0, 5) + 1
    ensures r == Answer(attempts(tries - 1))
  {
    hide LastAttempt;
    var last := RolledBack(Other);
    tries := 0;
    for i := 0 to 5
      invariant tries == i
      invariant i < 5 ==> LastAttempt(attempts, 0, 5) == LastAttempt(attempts, i, 5)
      invariant i == 5 ==> LastAttempt(attempts, 0, 5) == 4 && last == attempts(4) && Conflicting(last)
    {
      last := attempts(i);
      LastAttemptIs(attempts, i, 5);
      tries := tries + 1;
      if last.RolledBack? {
        if last.err.RecordNotFound? || last.err.LimitExceeded? || !last.err.LockConflict? {
          return Failed(last.err), tries;
        }
      } else {
        return Nil, tries;
      }
    }
    r := Exhausted(last.err);
  }

  lemma {:induction false} NoCommitsBefore(attempts: nat -> Outcome, n: nat)
    requires forall i: nat | i < n :: Conflicting(attempts(i))
    ensures Commits(attempts, n) == 0
  {
    if n > 0 {
      NoCommitsBefore(attempts, n - 1);
    }
  }

  /** Whatever the attempts come to, at most one of those made commits, and one does exactly when the
      wrapper returns nil; an error other than a conflict is never tried again. */
  lemma CommitsOnceIffNil(attempts: nat -> Outcome, max: nat)
    requires max >= 1
    ensures var n := LastAttempt(attempts, 0, max);
            && Commits(attempts, n + 1) == (if Answer(attempts(n)) == Nil then 1 else 0)
            && (forall i: nat | i < n :: attempts(i) == RolledBack(LockConflict))
            && (Answer(attempts(n)).Exhausted? ==> n == max - 1)
  {
    NoCommitsBefore(attempts, LastAttempt(attempts, 0, max));
  }

  // ---- a flag set inside the retried transaction ----

  /** The failure recorder under the wrapper: attempt k reads `fails(k)` from the row. The flag it
      reports is set in the transaction body and not reset between attempts. */
  method RecordLoginFailure(attempts: nat -> Outcome, fails: nat -> int, maxFails: int)
    returns (r: Result, locked: bool, tries: nat)
    ensures tries == LastAttempt(attempts, 0, 10) + 1 && r == Answer(attempts(tries - 1))
    ensures locked <==> r == Nil && exists k: nat | k < tries :: FillsCounter(fails(k), maxFails)
  {
    hide LastAttempt, Answer, FillsCounter;
    locked := false;
    tries := 0;
    while true
      invariant tries < 10
      invariant LastAttempt(attempts, 0, 10) == LastAttempt(attempts, tries, 10)
      invariant locked <==> exists k: nat | k < tries :: FillsCounter(fails(k), maxFails)
      decreases 10 - tries
    {
      LastAttemptIs(attempts, tries, 10);
      if FillsCounter(fails(tries), maxFails) {
        locked := true;
      }
      var o := attempts(tries);
      tries := tries + 1;
      r := Answer(o);
      if !Conflicting(o) || tries == 10 {
        break;
      }
    }
    locked := locked && r == Nil;
  }

  predicate FillsCounter(fails: int, maxFails: int) {
    maxFails > 0 && fails + 1 >= maxFails
  }

  /** What the caller is told of a lock, and whether the committed attempt wrote one. */
  predicate Reported(attempts: nat -> Outcome, fails: nat -> int, maxFails: int) {
    var n := LastAttempt(attempts, 0, 10);
    attempts(n).Committed? && exists k: nat | k <= n :: FillsCounter(fails(k), maxFails)
  }

  predicate Written(attempts: nat -> Outcome, fails: nat -> int, maxFails: int) {
    var n := LastAttempt(attempts, 0, 10);
    attempts(n).Committed? && FillsCounter(fails(n), maxFails)
  }

  /** A lock that was written is always reported; one is reported without being written exactly when
      an attempt that conflicted had filled the counter and the one that committed had not. */
  lemma ReportedUnlessStale(attempts: nat -> Outcome, fails: nat -> int, maxFails: int)
    ensures Written(attempts, fails, maxFails) ==> Reported(attempts, fails, maxFails)
    ensures var n := LastAttempt(attempts, 0, 10);
            Reported(attempts, fails, maxFails) && !Written(attempts, fails, maxFails)
            <==> attempts(n).Committed? && !FillsCounter(fails(n), maxFails)
                 && exists k: nat | k < n :: FillsCounter(fails(k), maxFails)
  {
    var n := LastAttempt(attempts, 0, 10);
    if attempts(n).Committed? && !FillsCounter(fails(n), maxFails) {
      if k: nat :| k <= n && FillsCounter(fails(k), maxFails) {
        assert k < n;
      }
    }
  }

  /** That case occurs: the first attempt fills the counter and conflicts, a successful login clears
      the counter, the second attempt commits one failure of five. */
  lemma StaleReportExists() returns (attempts: nat -> Outcome, fails: nat -> int)
    ensures Reported(attempts, fails, 5) && !Written(attempts, fails, 5)
  {
    attempts := (k: nat) => if k == 0 then RolledBack(LockConflict) else Committed;
    fails := (k: nat) => if k == 0 then 4 else 0;
    assert LastAttempt(attempts, 0, 10) == LastAttempt(attempts, 1, 10) == 1;
    assert FillsCounter(fails(0), 5);
  }
}
