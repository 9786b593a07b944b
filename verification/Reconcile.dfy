/** Quota reconciliation from the job table (backend/internal/quota/reconciler.go), the per-job amounts
    it adds up (backend/internal/models/models.go), and the tasks that a job becomes on the cluster
    (`buildTasks` of backend/internal/k8s/client.go). */
module Reconcile {
  import opened Base

  datatype Status = Pending | Running | Paused | Retrying | Completed | Failed | Cancelled

  datatype Job = Job(tenant: string, status: Status, gpus: int, memory: int, distributed: bool, replicas: int,
                     minAvailable: int)
  {
    function EffectiveReplicas(): (n: int)
      ensures n >= 1
    {
      if !distributed || replicas <= 0 then 1 else 1 + replicas
    }

    function TotalGpus(): int {
      if gpus <= 0 then 0 else gpus * EffectiveReplicas()
    }

    function TotalMemory(): int {
      if memory <= 0 then 0 else memory * EffectiveReplicas()
    }

    predicate IsTerminal() {
      status in {Completed, Failed, Cancelled}
    }
  }

  datatype Usage = Usage(gpus: int, memory: int, jobs: int)

  datatype Quota = Quota(gpuQuota: int, memoryQuota: int, jobQuota: int, used: Usage)

  const NOTHING := Usage(0, 0, 0)

  function Plus(u: Usage, v: Usage): Usage {
    Usage(u.gpus + v.gpus, u.memory + v.memory, u.jobs + v.jobs)
  }

  /** What one job counts for a tenant. */
  function UsageOf(j: Job, tenant: string): Usage {
    if j.IsTerminal() || j.tenant != tenant then NOTHING else Usage(j.TotalGpus(), j.TotalMemory(), 1)
  }

  function TenantUsage(jobs: seq<Job>, tenant: string): Usage {
    if jobs == [] then NOTHING
    else Plus(TenantUsage(jobs[..|jobs| - 1], tenant), UsageOf(jobs[|jobs| - 1], tenant))
  }

  /** The tenants with a job that is not over. */
  function ActiveTenants(jobs: seq<Job>): set<string> {
    set j | j in jobs && !j.IsTerminal() :: j.tenant
  }

  /** A tenant's row without its usage; zero limits if it has none. */
  function Limits(db: map<string, Quota>, tenant: string): Quota {
    if tenant in db then db[tenant].(used := NOTHING) else Quota(0, 0, 0, NOTHING)
  }

  /** The rows that a pass computes. */
  function Tally(db: map<string, Quota>, jobs: seq<Job>): map<string, Quota> {
    map t | t in db.Keys + ActiveTenants(jobs) :: Limits(db, t).(used := TenantUsage(jobs, t))
  }

  /** The table after a pass: a tenant whose write fails keeps what it had. */
  function Reconciled(db: map<string, Quota>, jobs: seq<Job>, failing: set<string>): map<string, Quota> {
    db + (Tally(db, jobs) - failing)
  }

  /** The listing has every row of the table. */
  predicate Lists(rows: seq<(string, Quota)>, db: map<string, Quota>) {
    && (forall r | r in rows :: r.0 in db && db[r.0] == r.1)
    && (forall t | t in db :: (t, db[t]) in rows)
  }

  class Reconciler {
    var db: map<string, Quota>

    constructor (rows: map<string, Quota>)
      ensures db == rows
    {
      db := rows;
    }

    /** One pass. A list that cannot be read ends it; a row that cannot be written is skipped. */
    method Pass(quotas: Option<seq<(string, Quota)>>, jobs: Option<seq<Job>>, failing: set<string>)
      requires quotas.Some? ==> Lists(quotas.value, db)
      modifies this
      ensures db == if quotas.None? || jobs.None? then old(db) else Reconciled(old(db), jobs.value, failing)
    {
      if quotas.None? || jobs.None? {
        return;
      }
      var used := TakeLimits(quotas.value, db);
      used := AddJobs(used, db, jobs.value);
      Write(used, failing);
    }

    method Write(used: map<string, Quota>, failing: set<string>)
      modifies this
      ensures db == old(db) + (used - failing)
    {
      var todo := used.Keys;
      while todo != {}
        invariant todo <= used.Keys
        invariant db == old(db) + (used - failing - todo)
      {
        var t :| t in todo;
        todo := todo - {t};
        if t !in failing {
          db := db[t := used[t]];
        }
      }
    }
  }

  method TakeLimits(rows: seq<(string, Quota)>, ghost db: map<string, Quota>) returns (used: map<string, Quota>)
    requires Lists(rows, db)
    ensures used == Tally(db, [])
  {
    used := map[];
    var i := 0;
    while i < |rows|
      invariant 0 <= i <= |rows|
      invariant used.Keys == set r | r in rows[..i] :: r.0
      invariant forall t | t in used :: used[t] == Limits(db, t)
    {
      var q := rows[i].1;
      used := used[rows[i].0 := Quota(q.gpuQuota, q.memoryQuota, q.jobQuota, NOTHING)];
      assert rows[..i + 1] == rows[..i] + [rows[i]];
      i := i + 1;
    }
    assert rows[..i] == rows;
    forall t | t in db ensures t in used {
      assert (t, db[t]) in rows;
    }
  }

  method AddJobs(rows: map<string, Quota>, ghost db: map<string, Quota>, jobs: seq<Job>)
    returns (used: map<string, Quota>)
    requires rows == Tally(db, [])
    ensures used == Tally(db, jobs)
  {
    hide Tally, TenantUsage, Job.TotalGpus, Job.TotalMemory;
    used := rows;
    var i := 0;
    while i < |jobs|
      invariant 0 <= i <= |jobs|
      invariant used == Tally(db, jobs[..i])
    {
      var j := jobs[i];
      TallySnoc(db, jobs[..i], j);
      assert jobs[..i + 1] == jobs[..i] + [j];
      if !j.IsTerminal() {
        var row := if j.tenant in used then used[j.tenant] else Quota(0, 0, 0, NOTHING);
        row := row.(used := row.used.(gpus := row.used.gpus + j.TotalGpus()));
        row := row.(used := row.used.(memory := row.used.memory + j.TotalMemory()));
        row := row.(used := row.used.(jobs := row.used.jobs + 1));
        used := used[j.tenant := row];
      }
      i := i + 1;
    }
    assert jobs[..i] == jobs;
  }

  /** A tenant without a job that is not over has no usage. */
  lemma {:induction false} IdleUsesNothing(jobs: seq<Job>, t: string)
    requires t !in ActiveTenants(jobs)
    ensures TenantUsage(jobs, t) == NOTHING
    decreases |jobs|
  {
    if jobs != [] {
      var n := |jobs| - 1;
      assert jobs[n] in jobs;
      IdleUsesNothing(jobs[..n], t);
    }
  }

  /** The row with one more job. */
  function WithJob(row: Quota, j: Job): Quota {
    row.(used := Plus(row.used, Usage(j.TotalGpus(), j.TotalMemory(), 1)))
  }

  lemma UsageSnoc(jobs: seq<Job>, j: Job, t: string)
    ensures TenantUsage(jobs + [j], t) == Plus(TenantUsage(jobs, t), UsageOf(j, t))
  {
    assert (jobs + [j])[..|jobs|] == jobs;
  }

  /** One more job changes one row at most, and none if it is over. */
  lemma TallySnoc(db: map<string, Quota>, jobs: seq<Job>, j: Job)
    ensures var rows := Tally(db, jobs);
            Tally(db, jobs + [j])
            == if j.IsTerminal() then rows
               else rows[j.tenant := WithJob(if j.tenant in rows then rows[j.tenant] else Quota(0, 0, 0, NOTHING), j)]
  {
    var all := jobs + [j];
    assert ActiveTenants(all) == ActiveTenants(jobs) + (if j.IsTerminal() then {} else {j.tenant}) by {
      hide TenantUsage;
      assert forall k :: k in all <==> k in jobs || k == j;
    }
    forall t ensures TenantUsage(all, t) == Plus(TenantUsage(jobs, t), UsageOf(j, t)) {
      UsageSnoc(jobs, j, t);
    }
    if j.tenant !in ActiveTenants(jobs) {
      IdleUsesNothing(jobs, j.tenant);
    }
    hide TenantUsage, ActiveTenants, Job.TotalGpus, Job.TotalMemory, Limits;
    if j.IsTerminal() {
      assert forall t :: TenantUsage(all, t) == TenantUsage(jobs, t);
    } else {
      TallyUpdate(db, jobs, j);
    }
  }

  lemma TallyUpdate(db: map<string, Quota>, jobs: seq<Job>, j: Job)
    requires !j.IsTerminal()
    requires ActiveTenants(jobs + [j]) == ActiveTenants(jobs) + {j.tenant}
    requires forall t :: TenantUsage(jobs + [j], t) == Plus(TenantUsage(jobs, t), UsageOf(j, t))
    requires j.tenant !in ActiveTenants(jobs) ==> TenantUsage(jobs, j.tenant) == NOTHING
    ensures var rows := Tally(db, jobs);
            Tally(db, jobs + [j])
            == rows[j.tenant := WithJob(if j.tenant in rows then rows[j.tenant] else Quota(0, 0, 0, NOTHING), j)]
  {
    hide TenantUsage, ActiveTenants, Job.TotalGpus, Job.TotalMemory, Tally;
    var rows, more := Tally(db, jobs), Tally(db, jobs + [j]);
    TallyRows(db, jobs);
    TallyRows(db, jobs + [j]);
    var before := if j.tenant in rows then rows[j.tenant] else Quota(0, 0, 0, NOTHING);
    assert before == Limits(db, j.tenant).(used := TenantUsage(jobs, j.tenant));
    hide Limits;
    assert more[j.tenant] == WithJob(before, j);
    forall t | t in rows && t != j.tenant ensures more[t] == rows[t] {
      assert TenantUsage(jobs + [j], t) == TenantUsage(jobs, t);
    }
  }

  lemma TallyRows(db: map<string, Quota>, jobs: seq<Job>)
    ensures Tally(db, jobs).Keys == db.Keys + ActiveTenants(jobs)
    ensures forall t | t in Tally(db, jobs) :: Tally(db, jobs)[t] == Limits(db, t).(used := TenantUsage(jobs, t))
  {
    hide TenantUsage, ActiveTenants, Limits;
  }

  // ---- what a pass guarantees ----

  lemma {:induction false} UsageWithout(jobs: seq<Job>, i: nat, t: string)
    requires i < |jobs|
    ensures TenantUsage(jobs, t) == Plus(TenantUsage(jobs[..i] + jobs[i + 1..], t), UsageOf(jobs[i], t))
    decreases |jobs|
  {
    hide UsageOf;
    var n := |jobs| - 1;
    if i == n {
      assert jobs[..i] + jobs[i + 1..] == jobs[..n];
    } else {
      var rest := jobs[..i] + jobs[i + 1..];
      UsageWithout(jobs[..n], i, t);
      assert rest[..|rest| - 1] == jobs[..n][..i] + jobs[..n][i + 1..];
    }
  }

  /** The order of the job list does not matter. */
  lemma {:induction false} UsageIgnoresOrder(js: seq<Job>, ks: seq<Job>, t: string)
    requires multiset(js) == multiset(ks)
    ensures TenantUsage(js, t) == TenantUsage(ks, t)
    decreases |js|
  {
    if js == [] {
      assert |multiset(ks)| == 0;
    } else {
      var n := |js| - 1;
      var j := js[n];
      assert js == js[..n] + [j];
      assert j in multiset(ks);
      var i :| 0 <= i < |ks| && ks[i] == j;
      var rest := ks[..i] + ks[i + 1..];
      assert ks == ks[..i] + [j] + ks[i + 1..];
      assert multiset(js[..n]) == multiset(js) - multiset{j} == multiset(rest);
      UsageIgnoresOrder(js[..n], rest, t);
      UsageWithout(ks, i, t);
    }
  }

  lemma OrderDoesNotMatter(db: map<string, Quota>, js: seq<Job>, ks: seq<Job>, failing: set<string>)
    requires multiset(js) == multiset(ks)
    ensures Reconciled(db, js, failing) == Reconciled(db, ks, failing)
  {
    forall j ensures j in js <==> j in ks {
      assert j in js <==> j in multiset(js);
      assert j in ks <==> j in multiset(ks);
    }
    assert ActiveTenants(js) == ActiveTenants(ks);
    forall t ensures TenantUsage(js, t) == TenantUsage(ks, t) {
      UsageIgnoresOrder(js, ks, t);
    }
  }

  /** What every row is after a pass. A written row keeps its limits, zero if the tenant had none, and
      has the usage of the jobs; a row is there exactly if it was there or it was written for an active
      tenant; a row whose write failed is as it was. */
  lemma RowsAfterPass(db: map<string, Quota>, jobs: seq<Job>, failing: set<string>, t: string)
    ensures var rows := Reconciled(db, jobs, failing);
            && (t in rows <==> t in db || (t in ActiveTenants(jobs) && t !in failing))
            && (t in rows && t !in failing ==>
                  && rows[t].used == TenantUsage(jobs, t)
                  && rows[t].(used := NOTHING) == Limits(db, t))
            && (t in db && t in failing ==> rows[t] == db[t])
  {
  }

  /** A pass that writes every row does not look at the usage it finds, so whatever state the usage
      columns drifted to, and whatever an earlier pass failed to write, it ends in the same table; a
      further pass, even one with failing writes, changes nothing. */
  lemma PassesConverge(db: map<string, Quota>, drifted: map<string, Quota>, jobs: seq<Job>, failing: set<string>)
    requires drifted.Keys == db.Keys && forall t | t in db :: Limits(drifted, t) == Limits(db, t)
    ensures Reconciled(drifted, jobs, {}) == Reconciled(db, jobs, {})
    ensures Reconciled(Reconciled(db, jobs, failing), jobs, {}) == Reconciled(db, jobs, {})
    ensures Reconciled(Reconciled(db, jobs, {}), jobs, failing) == Reconciled(db, jobs, {})
  {
    var clean, once := Reconciled(db, jobs, {}), Reconciled(db, jobs, failing);
    FullPass(db, jobs);
    FullPass(drifted, jobs);
    FullPass(once, jobs);
    PassKeepsLimits(db, jobs, failing);
    PassKeepsLimits(db, jobs, {});
    LimitsDecide(db, drifted, jobs);
    LimitsDecide(db, once, jobs);
    LimitsDecide(db, clean, jobs);
    hide Limits, TenantUsage, ActiveTenants, Tally;
  }

  /** A pass that writes every row leaves the rows that it computed. */
  lemma FullPass(db: map<string, Quota>, jobs: seq<Job>)
    ensures Reconciled(db, jobs, {}) == Tally(db, jobs)
  {
    TallyRows(db, jobs);
    hide Tally, TenantUsage, ActiveTenants, Limits;
    assert Tally(db, jobs) - {} == Tally(db, jobs);
  }

  lemma PassKeepsLimits(db: map<string, Quota>, jobs: seq<Job>, failing: set<string>)
    ensures db.Keys <= Reconciled(db, jobs, failing).Keys <= db.Keys + ActiveTenants(jobs)
    ensures forall t | t in Reconciled(db, jobs, failing) ::
              Reconciled(db, jobs, failing)[t].(used := NOTHING) == Limits(db, t)
  {
    TallyRows(db, jobs);
    hide Tally, TenantUsage, ActiveTenants;
  }

  /** Nothing but the limits goes into the rows that a pass computes. */
  lemma LimitsDecide(db: map<string, Quota>, other: map<string, Quota>, jobs: seq<Job>)
    requires db.Keys <= other.Keys <= db.Keys + ActiveTenants(jobs)
    requires forall t | t in other :: other[t].(used := NOTHING) == Limits(db, t)
    ensures Tally(other, jobs) == Tally(db, jobs)
  {
    hide TenantUsage, ActiveTenants;
  }

  // ---- what is counted, job by job ----

  /** A job of the tenant's that still uses resources. */
  predicate InUse(j: Job, tenant: string) {
    j.tenant == tenant && (j.status == Pending || j.status == Running || j.status == Paused || j.status == Retrying)
  }

  /** A distributed job has one pod more than it asks for replicas, any other one pod. */
  function Pods(j: Job): int {
    if j.distributed && j.replicas > 0 then j.replicas + 1 else 1
  }

  /** What a job in use holds: its amounts for every pod, a negative amount counting as nothing. */
  function Held(j: Job, tenant: string): Usage {
    if InUse(j, tenant)
    then Usage((if j.gpus > 0 then j.gpus else 0) * Pods(j), (if j.memory > 0 then j.memory else 0) * Pods(j), 1)
    else NOTHING
  }

  function AllHeld(jobs: seq<Job>, tenant: string): Usage {
    if jobs == [] then NOTHING else Plus(AllHeld(jobs[..|jobs| - 1], tenant), Held(jobs[|jobs| - 1], tenant))
  }

  lemma JobHolds(j: Job, t: string)
    ensures UsageOf(j, t) == Held(j, t)
  {
  }

  /** The usage that a pass writes is what the pending, running, paused and retrying jobs of the tenant hold. */
  lemma {:induction false} UsageIsHeld(jobs: seq<Job>, t: string)
    ensures TenantUsage(jobs, t) == AllHeld(jobs, t)
    decreases |jobs|
  {
    if jobs != [] {
      var n := |jobs| - 1;
      UsageIsHeld(jobs[..n], t);
      JobHolds(jobs[n], t);
      hide UsageOf, Held;
    }
  }

  predicate AnyInUse(jobs: seq<Job>, tenant: string) {
    exists j | j in jobs :: InUse(j, tenant)
  }

  lemma ActiveHasOneInUse(jobs: seq<Job>, t: string)
    ensures t in ActiveTenants(jobs) <==> AnyInUse(jobs, t)
  {
    assert forall j: Job :: InUse(j, t) <==> j.tenant == t && !j.IsTerminal();
    hide InUse, Job.IsTerminal;
  }

  /** After a pass a tenant has a row exactly if it had one, or has a job in use and the write worked; a row
      that was written has the limits it had, or zero, and that usage. */
  lemma RowsExactly(db: map<string, Quota>, jobs: seq<Job>, failing: set<string>, t: string)
    ensures var rows := Reconciled(db, jobs, failing);
            && (t in rows <==> t in db || (t !in failing && AnyInUse(jobs, t)))
            && (t in rows && t in failing ==> rows[t] == db[t])
            && (t in rows && t !in failing ==>
                  rows[t] == if t in db then db[t].(used := AllHeld(jobs, t)) else Quota(0, 0, 0, AllHeld(jobs, t)))
  {
    UsageIsHeld(jobs, t);
    ActiveHasOneInUse(jobs, t);
    hide TenantUsage, AllHeld, ActiveTenants, AnyInUse;
  }

  // ---- the cluster's side ----

  datatype Task = Task(name: string, replicas: int, gpus: int, memory: int)

  function BuildTaskSpec(j: Job, name: string, replicas: int): Task {
    Task(name, replicas, if j.gpus > 0 then j.gpus else 0, j.memory)
  }

  method BuildTasks(j: Job) returns (tasks: seq<Task>, minAvailable: int)
    ensures tasks == TasksOf(j)
    ensures 1 <= minAvailable <= j.EffectiveReplicas()
    ensures minAvailable == if 1 <= j.minAvailable <= j.EffectiveReplicas() then j.minAvailable else j.EffectiveReplicas()
  {
    if j.distributed && j.replicas > 0 {
      var workerReplicas := j.replicas;
      minAvailable := 1 + workerReplicas;
      if j.minAvailable > 0 && j.minAvailable <= minAvailable {
        minAvailable := j.minAvailable;
      }
      var masterTask := BuildTaskSpec(j, "master", 1);
      var workerTask := BuildTaskSpec(j, "worker", workerReplicas);
      return [masterTask, workerTask], minAvailable;
    }
    return [BuildTaskSpec(j, "main", 1)], 1;
  }

  function TasksOf(j: Job): seq<Task> {
    if j.distributed && j.replicas > 0 then [BuildTaskSpec(j, "master", 1), BuildTaskSpec(j, "worker", j.replicas)]
    else [BuildTaskSpec(j, "main", 1)]
  }

  /** What a list of tasks asks of the cluster; the last component counts pods. */
  function Demand(tasks: seq<Task>): Usage {
    if tasks == [] then NOTHING
    else Plus(Usage(tasks[0].gpus * tasks[0].replicas, tasks[0].memory * tasks[0].replicas, tasks[0].replicas),
              Demand(tasks[1..]))
  }

  /** A job's tasks ask for its total GPUs in its effective replicas, and for its total memory exactly
      if the job's memory is not negative: the total counts a negative amount as nothing, the tasks pass
      it on. */
  lemma TasksMatchTotals(j: Job)
    ensures Demand(TasksOf(j)).gpus == j.TotalGpus()
    ensures Demand(TasksOf(j)).jobs == j.EffectiveReplicas()
    ensures Demand(TasksOf(j)).memory == j.TotalMemory() <==> j.memory >= 0
    ensures Demand(TasksOf(j)).memory <= j.TotalMemory()
  {
    var m := j.EffectiveReplicas();
    var tasks := TasksOf(j);
    if j.distributed && j.replicas > 0 {
      assert tasks[1..] == [tasks[1]] && [tasks[1]][1..] == [];
      assert Demand([tasks[1]]) == Plus(Usage(tasks[1].gpus * j.replicas, j.memory * j.replicas, j.replicas), NOTHING);
      Distribute(tasks[0].gpus, j.replicas);
      Distribute(j.memory, j.replicas);
    } else {
      assert tasks[1..] == [];
    }
    NegativeTimes(j.memory, m);
  }

  lemma Distribute(a: int, n: int)
    ensures a * 1 + a * n == a * (1 + n)
  {
  }

  lemma NegativeTimes(a: int, n: int)
    requires n >= 1
    ensures a * n <= 0 <==> a <= 0
    ensures a * n < 0 <==> a < 0
  {
  }

  /** What the tenant's jobs that are not over ask of the cluster. */
  function TenantDemand(jobs: seq<Job>, tenant: string): Usage {
    if jobs == [] then NOTHING
    else Plus(TenantDemand(jobs[..|jobs| - 1], tenant),
              DemandOf(jobs[|jobs| - 1], tenant))
  }

  function DemandOf(j: Job, tenant: string): Usage {
    if j.IsTerminal() || j.tenant != tenant then NOTHING else Demand(TasksOf(j))
  }

  /** A job of the tenant's that is not over and asks for a negative amount of memory. */
  predicate NegativeFor(j: Job, tenant: string) {
    !j.IsTerminal() && j.tenant == tenant && j.memory < 0
  }

  predicate NoneNegative(jobs: seq<Job>, tenant: string) {
    forall j | j in jobs :: !NegativeFor(j, tenant)
  }

  lemma NoneNegativeLast(jobs: seq<Job>, t: string)
    requires jobs != []
    ensures NoneNegative(jobs, t) <==> NoneNegative(jobs[..|jobs| - 1], t) && !NegativeFor(jobs[|jobs| - 1], t)
  {
    hide NegativeFor;
    assert jobs == jobs[..|jobs| - 1] + [jobs[|jobs| - 1]];
  }

  lemma JobUsageIsDemand(j: Job, t: string)
    ensures UsageOf(j, t).gpus == DemandOf(j, t).gpus
    ensures UsageOf(j, t).memory >= DemandOf(j, t).memory
    ensures UsageOf(j, t).memory == DemandOf(j, t).memory <==> !NegativeFor(j, t)
  {
    TasksMatchTotals(j);
    hide Job.TotalGpus, Job.TotalMemory, Demand, TasksOf;
  }

  /** The usage that a pass writes is the demand of the tasks; for memory it is never less, and the same
      exactly if none of the tenant's jobs that are not over has a negative memory. */
  lemma {:induction false} UsageIsDemand(jobs: seq<Job>, t: string)
    ensures TenantUsage(jobs, t).gpus == TenantDemand(jobs, t).gpus
    ensures TenantUsage(jobs, t).memory >= TenantDemand(jobs, t).memory
    ensures TenantUsage(jobs, t).memory == TenantDemand(jobs, t).memory
            <==> NoneNegative(jobs, t)
    decreases |jobs|
  {
    if jobs != [] {
      var n := |jobs| - 1;
      JobUsageIsDemand(jobs[n], t);
      NoneNegativeLast(jobs, t);
      hide UsageOf, DemandOf, NegativeFor, NoneNegative;
      UsageIsDemand(jobs[..n], t);
    }
  }
}
