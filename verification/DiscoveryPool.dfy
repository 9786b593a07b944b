/** The bounded cluster discovery of backend/internal/scheduler/scheduler.go as a state machine: one
    goroutine per listed cluster behind a semaphore channel, joined by a wait group. */
module DiscoveryPool {
  import opened Base

  const DISCOVER_CONCURRENCY := 16

  /** Where the launching loop stands; `i` is the index of the cluster it is at. */
  datatype Main = Adding(i: nat) | Acquiring(i: nat) | Spawning(i: nat) | Waiting | Returned

  /** A goroutine: not yet run, inside the refresh, unwinding from a panic of it, past it with the panic
      recovered if there was one, its slot given back, and past the wait group. The deferred calls run
      in that order, the last one deferred first. */
  datatype Job = Ready | Refreshing | Unwinding | Left | Released | Finished

  /** `slots` are the entries in the semaphore channel, `group` the wait group's counter. Goroutine
      j serves ids[j]; `attempts` lists the goroutines that have entered the refresh, in order. */
  datatype State = State(
    ids: seq<string>, cap: nat,
    main: Main, slots: nat, group: int, jobs: seq<Job>, attempts: seq<nat>
  )

  function Initial(ids: seq<string>, cap: nat): State {
    State(ids, cap, if ids == [] then Returned else Adding(0), 0, 0, [], [])
  }

  datatype Outcome = Success | Failure | Panic

  datatype Action =
    | Add | Acquire | Spawn | Join
    | Enter(j: nat) | Leave(j: nat, how: Outcome) | Recover(j: nat) | Release(j: nat) | Complete(j: nat)

  predicate At(s: State, j: nat, phase: Job) {
    j < |s.jobs| && s.jobs[j] == phase
  }

  predicate Enabled(s: State, a: Action) {
    match a
    case Add => s.main.Adding? && s.main.i < |s.ids|
    case Acquire => s.main.Acquiring? && s.slots < s.cap
    case Spawn => s.main.Spawning?
    case Join => s.main.Waiting? && s.group == 0
    case Enter(j) => At(s, j, Ready)
    case Leave(j, _) => At(s, j, Refreshing)
    case Recover(j) => At(s, j, Unwinding)
    case Release(j) => At(s, j, Left) && s.slots > 0
    case Complete(j) => At(s, j, Released)
  }

  function Step(s: State, a: Action): State
    requires Enabled(s, a)
  {
    match a
    case Add => s.(main := Acquiring(s.main.i), group := s.group + 1)
    case Acquire => s.(main := Spawning(s.main.i), slots := s.slots + 1)
    case Spawn =>
      s.(main := if s.main.i + 1 < |s.ids| then Adding(s.main.i + 1) else Waiting, jobs := s.jobs + [Ready])
    case Join => s.(main := Returned)
    case Enter(j) => s.(jobs := s.jobs[j := Refreshing], attempts := s.attempts + [j])
    case Leave(j, how) => s.(jobs := s.jobs[j := if how.Panic? then Unwinding else Left])  // an error is logged
    case Recover(j) => s.(jobs := s.jobs[j := Left])
    case Release(j) => s.(jobs := s.jobs[j := Released], slots := s.slots - 1)
    case Complete(j) => s.(jobs := s.jobs[j := Finished], group := s.group - 1)
  }

  predicate IsRun(s: State, actions: seq<Action>)
    decreases |actions|
  {
    actions == [] || (Enabled(s, actions[0]) && IsRun(Step(s, actions[0]), actions[1..]))
  }

  function After(s: State, actions: seq<Action>): State
    requires IsRun(s, actions)
    decreases |actions|
  {
    if actions == [] then s else After(Step(s, actions[0]), actions[1..])
  }

  predicate HoldsSlot(j: Job) { j.Ready? || j.Refreshing? || j.Unwinding? || j.Left? }

  predicate Pending(j: Job) { !j.Finished? }

  predicate Running(j: Job) { j.Refreshing? }

  /** How many goroutines the loop has launched. */
  function Launched(s: State): nat {
    match s.main
    case Adding(i) => i
    case Acquiring(i) => i
    case Spawning(i) => i
    case Waiting => |s.ids|
    case Returned => |s.ids|
  }

  /** The counters count: slots are held by goroutines that have not released theirs, or by the loop
      about to launch one; the wait group counts the unfinished. */
  ghost predicate CountInv(s: State) {
    && s.slots == Count(s.jobs, HoldsSlot) + (if s.main.Spawning? then 1 else 0)
    && s.slots <= s.cap
    && s.group == Count(s.jobs, Pending) + (if s.main.Acquiring? || s.main.Spawning? then 1 else 0)
    && (s.main.Returned? ==> s.group == 0)
  }

  /** Each goroutine past its start has entered the refresh exactly once. */
  ghost predicate AttemptInv(s: State) {
    && |s.jobs| == Launched(s)
    && (s.main.Adding? || s.main.Acquiring? || s.main.Spawning? ==> s.main.i < |s.ids|)
    && (forall k | 0 <= k < |s.attempts| :: s.attempts[k] < |s.jobs| && !s.jobs[s.attempts[k]].Ready?)
    && (forall k, l | 0 <= k < l < |s.attempts| :: s.attempts[k] != s.attempts[l])
    && (forall j | 0 <= j < |s.jobs| && !s.jobs[j].Ready? :: j in s.attempts)
  }

  ghost predicate Inv(s: State) {
    s.cap >= 1 && CountInv(s) && AttemptInv(s)
  }

  lemma JobStep(s: State, j: nat, phase: Job)
    requires j < |s.jobs|
    ensures var t := s.jobs[j := phase];
            && Count(t, HoldsSlot) == Count(s.jobs, HoldsSlot)
                 - (if HoldsSlot(s.jobs[j]) then 1 else 0) + (if HoldsSlot(phase) then 1 else 0)
            && Count(t, Pending) == Count(s.jobs, Pending)
                 - (if Pending(s.jobs[j]) then 1 else 0) + (if Pending(phase) then 1 else 0)
  {
    CountUpdate(s.jobs, j, phase, HoldsSlot);
    CountUpdate(s.jobs, j, phase, Pending);
  }

  lemma StepKeepsCountInv(s: State, a: Action)
    requires Inv(s) && Enabled(s, a)
    ensures CountInv(Step(s, a))
  {
    hide Count, AttemptInv;
    match a {
      case Spawn =>
        CountAppend(s.jobs, Ready, HoldsSlot);
        CountAppend(s.jobs, Ready, Pending);
      case Enter(j) => JobStep(s, j, Refreshing);
      case Leave(j, how) => JobStep(s, j, if how.Panic? then Unwinding else Left);
      case Recover(j) => JobStep(s, j, Left);
      case Release(j) => JobStep(s, j, Released);
      case Complete(j) => JobStep(s, j, Finished);
      case _ =>
    }
  }

  lemma StepKeepsAttemptInv(s: State, a: Action)
    requires AttemptInv(s) && Enabled(s, a)
    ensures AttemptInv(Step(s, a))
  {
    if a.Enter? {
      EnterKeepsAttemptInv(s, a.j);
    } else {
      var t := Step(s, a);
      assert t.attempts == s.attempts;
      assert forall j | 0 <= j < |s.jobs| :: t.jobs[j].Ready? <==> s.jobs[j].Ready?;
    }
  }

  lemma EnterKeepsAttemptInv(s: State, j: nat)
    requires AttemptInv(s) && Enabled(s, Enter(j))
    ensures AttemptInv(Step(s, Enter(j)))
  {
    var t := Step(s, Enter(j));
    assert j !in s.attempts;
    forall i | 0 <= i < |t.jobs| && !t.jobs[i].Ready?
      ensures i in t.attempts
    {
      assert i == j || i in s.attempts;
    }
  }

  lemma {:induction false} RunKeepsInv(s: State, actions: seq<Action>)
    requires Inv(s) && IsRun(s, actions)
    ensures Inv(After(s, actions))
    ensures After(s, actions).ids == s.ids && After(s, actions).cap == s.cap
    decreases |actions|
  {
    if actions != [] {
      StepKeepsCountInv(s, actions[0]);
      StepKeepsAttemptInv(s, actions[0]);
      RunKeepsInv(Step(s, actions[0]), actions[1..]);
    }
  }

  lemma {:induction false} CountImplies<T>(s: seq<T>, p: T -> bool, q: T -> bool)
    requires forall x :: p(x) ==> q(x)
    ensures Count(s, p) <= Count(s, q)
    decreases |s|
  {
    if s != [] {
      CountImplies(s[..|s| - 1], p, q);
    }
  }

  /** In every interleaving at most `cap` refreshes run at once. */
  lemma BoundedConcurrency(ids: seq<string>, cap: nat, actions: seq<Action>)
    requires cap >= 1 && IsRun(Initial(ids, cap), actions)
    ensures Count(After(Initial(ids, cap), actions).jobs, Running) <= cap
  {
    RunKeepsInv(Initial(ids, cap), actions);
    CountImplies(After(Initial(ids, cap), actions).jobs, Running, HoldsSlot);
  }

  /** No cluster is attempted twice, and when the function has returned every listed cluster has
      been attempted exactly once and every goroutine is past its refresh. */
  lemma EachAttemptedOnce(ids: seq<string>, cap: nat, actions: seq<Action>)
    requires cap >= 1 && IsRun(Initial(ids, cap), actions)
    ensures var s := After(Initial(ids, cap), actions);
            && (forall k, l | 0 <= k < l < |s.attempts| :: s.attempts[k] != s.attempts[l])
            && (forall k | 0 <= k < |s.attempts| :: s.attempts[k] < |ids|)
            && (s.main.Returned? ==>
                  && (forall j | 0 <= j < |ids| :: j in s.attempts)
                  && |s.jobs| == |ids| && forall j | 0 <= j < |ids| :: s.jobs[j].Finished?)
  {
    var s := After(Initial(ids, cap), actions);
    RunKeepsInv(Initial(ids, cap), actions);
    if s.main.Returned? {
      CountNone(s.jobs, Pending);
      assert forall j | 0 <= j < |ids| :: !Pending(s.jobs[j]);
    }
  }

  // ---- the function does return ----

  /** Work left: three steps a cluster for the loop, at most five for its goroutine, and the join. */
  function Rank(j: Job): nat {
    match j case Ready => 5 case Refreshing => 4 case Unwinding => 3 case Left => 2 case Released => 1 case Finished => 0
  }

  function RankSum(jobs: seq<Job>): nat {
    if jobs == [] then 0 else RankSum(jobs[..|jobs| - 1]) + Rank(jobs[|jobs| - 1])
  }

  function WorkLeft(s: State): int {
    RankSum(s.jobs) +
    match s.main
    case Adding(i) => 8 * (|s.ids| - i) + 1
    case Acquiring(i) => 8 * (|s.ids| - i)
    case Spawning(i) => 8 * (|s.ids| - i) - 1
    case Waiting => 1
    case Returned => 0
  }

  lemma {:induction false} RankUpdate(jobs: seq<Job>, j: nat, phase: Job)
    requires j < |jobs|
    ensures RankSum(jobs[j := phase]) == RankSum(jobs) - Rank(jobs[j]) + Rank(phase)
    decreases |jobs|
  {
    var t := jobs[j := phase];
    if j == |jobs| - 1 {
      assert t[..|jobs| - 1] == jobs[..|jobs| - 1];
    } else {
      assert t[..|jobs| - 1] == jobs[..|jobs| - 1][j := phase];
      RankUpdate(jobs[..|jobs| - 1], j, phase);
    }
  }

  lemma StepConsumesWork(s: State, a: Action)
    requires Inv(s) && Enabled(s, a)
    ensures WorkLeft(Step(s, a)) < WorkLeft(s) && WorkLeft(s) >= 1
  {
    SpawnRank(s.jobs);
    hide RankSum, Count, CountInv;
    match a {
      case Enter(j) => RankUpdate(s.jobs, j, Refreshing);
      case Leave(j, how) => RankUpdate(s.jobs, j, if how.Panic? then Unwinding else Left);
      case Recover(j) => RankUpdate(s.jobs, j, Left);
      case Release(j) => RankUpdate(s.jobs, j, Released);
      case Complete(j) => RankUpdate(s.jobs, j, Finished);
      case _ =>
    }
  }

  lemma SpawnRank(jobs: seq<Job>)
    ensures RankSum(jobs + [Ready]) == RankSum(jobs) + 5
  {
    assert (jobs + [Ready])[..|jobs|] == jobs;
  }

  /** No deadlock: until the function has returned some step is possible, even if every refresh
      panics, because a goroutine that holds a slot can always give it back. */
  lemma SomeStepEnabled(s: State) returns (a: Action)
    requires Inv(s) && !s.main.Returned?
    ensures Enabled(s, a)
  {
    CountNone(s.jobs, HoldsSlot);
    CountNone(s.jobs, Pending);
    match s.main {
      case Adding(_) => a := Add;
      case Spawning(_) => a := Spawn;
      case Acquiring(_) =>
        if s.slots < s.cap {
          a := Acquire;
        } else {
          var j :| 0 <= j < |s.jobs| && HoldsSlot(s.jobs[j]);
          a := NextOf(s, j);
        }
      case Waiting =>
        if s.group == 0 {
          a := Join;
        } else {
          var j :| 0 <= j < |s.jobs| && Pending(s.jobs[j]);
          a := NextOf(s, j);
        }
    }
  }

  lemma NextOf(s: State, j: nat) returns (a: Action)
    requires Inv(s) && j < |s.jobs| && Pending(s.jobs[j])
    ensures Enabled(s, a)
  {
    CountNone(s.jobs, HoldsSlot);
    a := match s.jobs[j]
      case Ready => Enter(j) case Refreshing => Leave(j, Panic) case Unwinding => Recover(j)
      case Left => Release(j) case _ => Complete(j);
  }

  lemma {:induction false} RunLength(s: State, actions: seq<Action>)
    requires Inv(s) && IsRun(s, actions)
    ensures |actions| <= WorkLeft(s) - WorkLeft(After(s, actions)) && WorkLeft(After(s, actions)) >= 0
    decreases |actions|
  {
    if actions == [] {
      assert RankSum(s.jobs) >= 0;
    } else {
      StepConsumesWork(s, actions[0]);
      StepKeepsCountInv(s, actions[0]);
      StepKeepsAttemptInv(s, actions[0]);
      RunLength(Step(s, actions[0]), actions[1..]);
    }
  }

  /** Every run has at most 8n + 1 steps for n clusters, and one that cannot go on has returned:
      whatever the interleaving and however the refreshes end, the function returns. */
  lemma AlwaysReturns(ids: seq<string>, cap: nat, actions: seq<Action>)
    requires cap >= 1 && IsRun(Initial(ids, cap), actions)
    ensures |actions| <= 8 * |ids| + 1
    ensures (forall a :: !Enabled(After(Initial(ids, cap), actions), a))
            ==> After(Initial(ids, cap), actions).main.Returned?
  {
    var s := After(Initial(ids, cap), actions);
    RunLength(Initial(ids, cap), actions);
    RunKeepsInv(Initial(ids, cap), actions);
    if !s.main.Returned? {
      var a := SomeStepEnabled(s);
    }
  }

  /** The concurrency the scheduler is built with. */
  lemma SchedulerBound(ids: seq<string>, actions: seq<Action>)
    requires IsRun(Initial(ids, DISCOVER_CONCURRENCY), actions)
    ensures Count(After(Initial(ids, DISCOVER_CONCURRENCY), actions).jobs, Running) <= 16
  {
    BoundedConcurrency(ids, DISCOVER_CONCURRENCY, actions);
  }
}
