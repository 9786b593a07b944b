/** Conservation of the tenant quota over whole runs of the handlers in module Inference. */
module QuotaConservation {
  import opened Base
  import opened Inference

  /** What the services of a tenant add up to, for a per-service amount. */
  function Total(rows: seq<Service>, tenant: string, amount: Service -> int): int {
    if rows == [] then 0
    else
      var last := rows[|rows| - 1];
      Total(rows[..|rows| - 1], tenant, amount) + (if last.tenant == tenant then amount(last) else 0)
  }

  function Gpus(s: Service): int { s.spec.gpus }
  function Mem(s: Service): int { MemGB(s.spec) }
  function One(s: Service): int { 1 }

  predicate Sound(s: Service, quotas: map<string, Quota>) {
    s.tenant != "" && s.tenant in quotas && s.spec.gpus >= 0
  }

  ghost predicate DistinctIds(rows: seq<Service>) {
    forall i, j | 0 <= i < j < |rows| :: rows[i].id != rows[j].id
  }

  /** Used equals what the live services and the lost reservations add up to, within the limit. */
  predicate Balanced(db: Db, t: string)
    requires t in db.quotas
  {
    var q := db.quotas[t];
    && q.gpuUsed == Total(db.services, t, Gpus) + Total(db.leaks, t, Gpus) <= q.gpuQuota
    && q.memUsed == Total(db.services, t, Mem) + Total(db.leaks, t, Mem) <= q.memQuota
    && q.jobUsed == Total(db.services, t, One) + Total(db.leaks, t, One) <= q.jobQuota
  }

  ghost predicate RowsInv(db: Db) {
    && DistinctIds(db.services)
    && (forall i | 0 <= i < |db.services| :: Sound(db.services[i], db.quotas))
    && (forall i | 0 <= i < |db.leaks| :: Sound(db.leaks[i], db.quotas))
  }

  ghost predicate Inv(db: Db) {
    RowsInv(db) && forall t | t in db.quotas :: Balanced(db, t)
  }

  // ---- sums ----

  lemma TotalAppend(rows: seq<Service>, s: Service, t: string, amount: Service -> int)
    ensures Total(rows + [s], t, amount) == Total(rows, t, amount) + (if s.tenant == t then amount(s) else 0)
  {
    assert (rows + [s])[..|rows|] == rows;
  }

  lemma {:induction false} TotalUpdate(rows: seq<Service>, i: nat, s: Service, t: string, amount: Service -> int)
    requires i < |rows|
    ensures Total(rows[i := s], t, amount)
         == Total(rows, t, amount) - (if rows[i].tenant == t then amount(rows[i]) else 0)
            + (if s.tenant == t then amount(s) else 0)
    decreases |rows|
  {
    var u := rows[i := s];
    if i == |rows| - 1 {
      assert u[..|rows| - 1] == rows[..|rows| - 1];
    } else {
      assert u[..|rows| - 1] == rows[..|rows| - 1][i := s];
      TotalUpdate(rows[..|rows| - 1], i, s, t, amount);
    }
  }

  lemma {:induction false} TotalRemove(rows: seq<Service>, i: nat, t: string, amount: Service -> int)
    requires i < |rows|
    ensures Total(rows[..i] + rows[i + 1..], t, amount)
         == Total(rows, t, amount) - (if rows[i].tenant == t then amount(rows[i]) else 0)
    decreases |rows|
  {
    var last := |rows| - 1;
    var init := rows[..last];
    if i == last {
      assert rows[..i] + rows[i + 1..] == init;
    } else {
      TotalRemove(init, i, t, amount);
      assert rows[..i] + rows[i + 1..] == (init[..i] + init[i + 1..]) + [rows[last]];
      TotalAppend(init[..i] + init[i + 1..], rows[last], t, amount);
    }
  }

  /** A sum of amounts that are not negative is at least each of them. */
  lemma {:induction false} TotalCovers(rows: seq<Service>, t: string, amount: Service -> int, quotas: map<string, Quota>)
    requires forall i | 0 <= i < |rows| :: Sound(rows[i], quotas)
    requires forall s | Sound(s, quotas) :: amount(s) >= 0
    ensures Total(rows, t, amount) >= 0
    ensures forall i | 0 <= i < |rows| && rows[i].tenant == t :: Total(rows, t, amount) >= amount(rows[i])
    decreases |rows|
  {
    if rows != [] {
      TotalCovers(rows[..|rows| - 1], t, amount, quotas);
      assert forall i | 0 <= i < |rows| - 1 :: rows[i] == rows[..|rows| - 1][i];
    }
  }

  lemma MemIsPositive(s: Spec)
    ensures MemGB(s) >= 1
  {
  }

  // ---- updates and deletes by id touch one row ----

  lemma UpdateIsAt(rows: seq<Service>, i: nat, s: Service, columns: Columns)
    requires DistinctIds(rows) && i < |rows| && rows[i].id == s.id
    ensures UpdateWhere(rows, s, columns) == rows[i := Written(rows[i], s, columns)]
  {
  }

  lemma {:induction false} DeleteIsAt(rows: seq<Service>, i: nat, id: string)
    requires DistinctIds(rows) && i < |rows| && rows[i].id == id
    ensures DeleteWhere(rows, id) == rows[..i] + rows[i + 1..]
    decreases |rows|
  {
    var last := |rows| - 1;
    var init := rows[..last];
    if i == last {
      DeleteNone(init, id);
      assert rows[i + 1..] == [];
    } else {
      DeleteIsAt(init, i, id);
      assert rows[..i] + rows[i + 1..] == (init[..i] + init[i + 1..]) + [rows[last]];
    }
  }

  lemma {:induction false} DeleteNone(rows: seq<Service>, id: string)
    requires forall i | 0 <= i < |rows| :: rows[i].id != id
    ensures DeleteWhere(rows, id) == rows
    decreases |rows|
  {
    if rows != [] {
      DeleteNone(rows[..|rows| - 1], id);
    }
  }

  /** What replacing one row of the same tenant does to the balance. */
  lemma ReplaceTotals(db: Db, i: nat, s: Service, t: string)
    requires i < |db.services| && s.tenant == db.services[i].tenant
    ensures var rows := db.services[i := s];
            var mine := s.tenant == t;
            && Total(rows, t, Gpus) == Total(db.services, t, Gpus) + (if mine then Gpus(s) - Gpus(db.services[i]) else 0)
            && Total(rows, t, Mem) == Total(db.services, t, Mem) + (if mine then Mem(s) - Mem(db.services[i]) else 0)
            && Total(rows, t, One) == Total(db.services, t, One)
  {
    TotalUpdate(db.services, i, s, t, Gpus);
    TotalUpdate(db.services, i, s, t, Mem);
    TotalUpdate(db.services, i, s, t, One);
  }

  /** A live service is covered by its tenant's row: releasing it never meets the clamp at zero. */
  lemma ClampsNeverFire(db: Db, i: nat)
    requires Inv(db) && i < |db.services|
    ensures var s := db.services[i];
            var q := db.quotas[s.tenant];
            && q.gpuUsed >= s.spec.gpus && q.memUsed >= MemGB(s.spec) && q.jobUsed >= 1
            && Released(q, s.spec.gpus, MemGB(s.spec), 1)
               == q.(gpuUsed := q.gpuUsed - s.spec.gpus, memUsed := q.memUsed - MemGB(s.spec), jobUsed := q.jobUsed - 1)
  {
    var t := db.services[i].tenant;
    assert Balanced(db, t);
    AllCovered(db, t);
    hide Total, MemGB;
  }

  lemma AllCovered(db: Db, t: string)
    requires RowsInv(db)
    ensures Total(db.leaks, t, Gpus) >= 0 && Total(db.leaks, t, Mem) >= 0 && Total(db.leaks, t, One) >= 0
    ensures forall i | 0 <= i < |db.services| && db.services[i].tenant == t ::
              && Total(db.services, t, Gpus) >= Gpus(db.services[i])
              && Total(db.services, t, Mem) >= Mem(db.services[i])
              && Total(db.services, t, One) >= One(db.services[i])
    ensures Total(db.services, t, Gpus) >= 0 && Total(db.services, t, Mem) >= 0 && Total(db.services, t, One) >= 0
  {
    forall s: Service
      ensures Mem(s) >= 0
    {
      MemIsPositive(s.spec);
    }
    TotalCovers(db.leaks, t, Gpus, db.quotas);
    TotalCovers(db.leaks, t, Mem, db.quotas);
    TotalCovers(db.leaks, t, One, db.quotas);
    TotalCovers(db.services, t, Gpus, db.quotas);
    TotalCovers(db.services, t, Mem, db.quotas);
    TotalCovers(db.services, t, One, db.quotas);
  }

  // ---- every handler keeps the balance ----

  /** A failed create whose release succeeds puts every table back as it was. */
  lemma FailedCreateRestores(db: Db, tenant: string, spec: Spec, id: string, insertOk: bool)
    requires Inv(db) && (!insertOk || HasId(db.services, id))
    ensures CreateFromSpec(db, tenant, spec, id, insertOk, true).0 == db
  {
    if tenant in db.quotas && Fits(db.quotas[tenant], spec.gpus, MemGB(spec), 1) {
      assert Balanced(db, tenant);
      AllCovered(db, tenant);
      var q := db.quotas[tenant];
      hide Total, MemGB;
      assert Released(Reserved(q, spec.gpus, MemGB(spec), 1), spec.gpus, MemGB(spec), 1) == q;
      assert db.quotas[tenant := q] == db.quotas;
    }
  }

  lemma CreateKeepsInv(db: Db, tenant: string, spec: Spec, id: string, insertOk: bool, releaseOk: bool)
    requires Inv(db) && spec.gpus >= 0 && tenant != ""
    ensures Inv(CreateFromSpec(db, tenant, spec, id, insertOk, releaseOk).0)
  {
    var s := Service(id, tenant, spec, "Pending", "", "", 0, "");
    if tenant in db.quotas && Fits(db.quotas[tenant], spec.gpus, MemGB(spec), 1) {
      if insertOk && !HasId(db.services, id) {
        AppendKeepsInv(db, s, db.services + [s], db.leaks);
      } else if releaseOk {
        FailedCreateRestores(db, tenant, spec, id, insertOk);
      } else {
        AppendKeepsInv(db, s, db.services, db.leaks + [s]);
      }
      hide Inv, HasId, Fits, Reserved;
    }
  }

  /** A reservation that fits is balanced by one more service, or by one more lost reservation. */
  lemma AppendKeepsInv(db: Db, s: Service, services: seq<Service>, leaks: seq<Service>)
    requires Inv(db) && s.spec.gpus >= 0 && s.tenant != "" && s.tenant in db.quotas
    requires Fits(db.quotas[s.tenant], s.spec.gpus, MemGB(s.spec), 1)
    requires (services == db.services + [s] && leaks == db.leaks && !HasId(db.services, s.id))
             || (services == db.services && leaks == db.leaks + [s])
    ensures Inv(Db(services, db.quotas[s.tenant := Reserved(db.quotas[s.tenant], s.spec.gpus, MemGB(s.spec), 1)], leaks))
  {
    var v := Db(services, db.quotas[s.tenant := Reserved(db.quotas[s.tenant], s.spec.gpus, MemGB(s.spec), 1)], leaks);
    forall t | t in v.quotas
      ensures Balanced(v, t)
    {
      AppendBalances(db, s, v, t);
    }
    hide Balanced, MemGB, Fits, Reserved;
  }

  lemma AppendBalances(db: Db, s: Service, v: Db, t: string)
    requires t in db.quotas && Balanced(db, t) && s.tenant in db.quotas
    requires Fits(db.quotas[s.tenant], s.spec.gpus, MemGB(s.spec), 1)
    requires v.quotas == db.quotas[s.tenant := Reserved(db.quotas[s.tenant], s.spec.gpus, MemGB(s.spec), 1)]
    requires (v.services == db.services + [s] && v.leaks == db.leaks)
             || (v.services == db.services && v.leaks == db.leaks + [s])
    ensures Balanced(v, t)
  {
    AppendTotals(db.services, s, t);
    AppendTotals(db.leaks, s, t);
    hide Total, MemGB;
  }

  lemma AppendTotals(rows: seq<Service>, s: Service, t: string)
    ensures Total(rows + [s], t, Gpus) == Total(rows, t, Gpus) + (if s.tenant == t then Gpus(s) else 0)
    ensures Total(rows + [s], t, Mem) == Total(rows, t, Mem) + (if s.tenant == t then Mem(s) else 0)
    ensures Total(rows + [s], t, One) == Total(rows, t, One) + (if s.tenant == t then One(s) else 0)
  {
    TotalAppend(rows, s, t, Gpus);
    TotalAppend(rows, s, t, Mem);
    TotalAppend(rows, s, t, One);
  }

  lemma ApplyKeepsInv(db: Db, tenant: string, i: nat, spec: Spec, ok: bool)
    requires Inv(db) && i < |db.services| && db.services[i].tenant == tenant && spec.gpus >= 0
    ensures Inv(ApplyTo(db, tenant, i, spec, ok).0)
  {
    var row := db.services[i];
    var s := row.(spec := spec, kserveName := if DeploymentChanged(row.spec, spec) then "" else row.kserveName);
    var v := ApplyTo(db, tenant, i, spec, ok).0;
    UpdateIsAt(db.services, i, s, ApplyColumns);
    var w := Written(row, s, ApplyColumns);
    assert MemGB(w.spec) == MemGB(spec);
    forall t | t in v.quotas
      ensures Balanced(v, t)
    {
      assert Balanced(db, t);
      if v != db {
        ReplaceBalances(db, i, w, v, t);
      }
    }
    hide Balanced, MemGB, Adjust, DeploymentChanged;
  }

  lemma ReplaceBalances(db: Db, i: nat, w: Service, v: Db, t: string)
    requires Inv(db) && i < |db.services| && t in db.quotas && w.tenant == db.services[i].tenant
    requires v == db.(services := db.services[i := w], quotas := v.quotas)
    requires var s := db.services[i];
             Adjust(db.quotas, s.tenant, s.spec.gpus, MemGB(s.spec), w.spec.gpus, MemGB(w.spec)) == Row(v.quotas)
    ensures t in v.quotas && Balanced(v, t)
  {
    ClampsNeverFire(db, i);
    assert Balanced(db, t);
    hide RowsInv, Inv;
    ReplaceTotals(db, i, w, t);
    hide Total, MemGB;
  }

  /** Writing columns that leave a row's tenant, id, GPUs and GPU memory alone keeps the balance. */
  lemma WriteKeepsInv(db: Db, s: Service, columns: Columns)
    requires Inv(db)
    requires forall i | 0 <= i < |db.services| && db.services[i].id == s.id ::
               columns.StatusColumns? ||
               (columns.SpecColumns? && s.spec.gpus == db.services[i].spec.gpus
                && s.spec.gpuMemory == db.services[i].spec.gpuMemory)
    ensures Inv(db.(services := UpdateWhere(db.services, s, columns)))
  {
    if i :| 0 <= i < |db.services| && db.services[i].id == s.id {
      UpdateIsAt(db.services, i, s, columns);
      var w := Written(db.services[i], s, columns);
      var v := db.(services := db.services[i := w]);
      assert MemGB(w.spec) == MemGB(db.services[i].spec);
      forall t | t in v.quotas
        ensures Balanced(v, t)
      {
        ReplaceBalances(db, i, w, v, t);
      }
      hide Balanced, MemGB;
    } else {
      assert UpdateWhere(db.services, s, columns) == db.services;
    }
  }

  lemma PatchKeepsInv(db: Db, scope: string, id: string, p: Patch, ok: bool)
    requires Inv(db)
    ensures Inv(PatchStep(db, scope, id, p, ok).0)
    ensures PatchStep(db, scope, id, p, ok).0.quotas == db.quotas
  {
    var i := FindById(db.services, scope, id);
    if i.Some? && !RejectsImmutable(p) {
      var row := db.services[i.value];
      var spec := ApplyPatch(p, row.spec);
      var s := row.(spec := spec, kserveName := if DeploymentChanged(row.spec, spec) then "" else row.kserveName);
      assert spec.gpus == row.spec.gpus && spec.gpuMemory == row.spec.gpuMemory;
      assert forall j | 0 <= j < |db.services| && db.services[j].id == s.id :: j == i.value;
      hide FindById, ApplyPatch, DeploymentChanged, ValidPatch, Inv, UpdateWhere;
      WriteKeepsInv(db, s, SpecColumns);
    }
  }

  lemma DeleteKeepsInv(db: Db, scope: string, id: string, ok: bool)
    requires Inv(db)
    ensures Inv(DeleteStep(db, scope, id, ok).0)
  {
    var found := FindById(db.services, scope, id);
    if found.Some? {
      var i := found.value;
      var s := db.services[i];
      var v := DeleteStep(db, scope, id, ok).0;
      DeleteIsAt(db.services, i, id);
      RemoveKeepsInv(db, i);
    }
  }

  lemma RemoveKeepsInv(db: Db, i: nat)
    requires Inv(db) && i < |db.services|
    ensures var s := db.services[i];
            Inv(db.(services := db.services[..i] + db.services[i + 1..],
                    quotas := db.quotas[s.tenant := Released(db.quotas[s.tenant], s.spec.gpus, MemGB(s.spec), 1)]))
  {
    var s := db.services[i];
    var rows := db.services[..i] + db.services[i + 1..];
    var v := db.(services := rows,
                 quotas := db.quotas[s.tenant := Released(db.quotas[s.tenant], s.spec.gpus, MemGB(s.spec), 1)]);
    forall t | t in v.quotas
      ensures Balanced(v, t)
    {
      RemoveBalances(db, i, v, t);
    }
    hide Balanced, MemGB, Released;
    RowsInvWithout(db, i, v);
  }

  lemma RowsInvWithout(db: Db, i: nat, v: Db)
    requires RowsInv(db) && i < |db.services| && v.services == db.services[..i] + db.services[i + 1..]
    requires v.leaks == db.leaks && v.quotas.Keys == db.quotas.Keys
    ensures RowsInv(v)
  {
    assert forall j | 0 <= j < |v.services| :: v.services[j] == db.services[if j < i then j else j + 1];
  }

  lemma RemoveBalances(db: Db, i: nat, v: Db, t: string)
    requires Inv(db) && i < |db.services| && t in db.quotas
    requires var s := db.services[i];
             v == db.(services := db.services[..i] + db.services[i + 1..],
                      quotas := db.quotas[s.tenant := Released(db.quotas[s.tenant], s.spec.gpus, MemGB(s.spec), 1)])
    ensures Balanced(v, t)
  {
    ClampsNeverFire(db, i);
    assert Balanced(db, t);
    hide RowsInv, Inv;
    TotalRemove(db.services, i, t, Gpus);
    TotalRemove(db.services, i, t, Mem);
    TotalRemove(db.services, i, t, One);
    hide Total, MemGB, Released;
  }

  lemma StepKeepsInv(db: Db, r: Request)
    requires Inv(db)
    ensures Inv(Step(db, r).0)
  {
    hide Inv;
    match r {
      case Create(tenant, raw, id, insertOk, releaseOk) =>
        if HasTenant(tenant) && Valid(Normalize(raw)) {
          CreateKeepsInv(db, tenant.value, Normalize(raw), id, insertOk, releaseOk);
        }
      case Apply(tenant, raw, pick, ok, id, insertOk, releaseOk) =>
        var spec := Normalize(raw);
        if HasTenant(tenant) && Valid(spec) {
          var i := FindByName(db.services, tenant.value, spec.name, pick);
          if i.None? {
            CreateKeepsInv(db, tenant.value, spec, id, insertOk, releaseOk);
          } else {
            ApplyKeepsInv(db, tenant.value, i.value, spec, ok);
          }
        }
      case PatchService(scope, id, p, ok) => PatchKeepsInv(db, scope, id, p, ok);
      case Delete(scope, id, ok) => DeleteKeepsInv(db, scope, id, ok);
      case WriteStatus(s) => WriteKeepsInv(db, s, StatusColumns);
    }
  }

  lemma {:induction false} RunKeepsInv(db: Db, run: seq<Request>)
    requires Inv(db)
    ensures Inv(After(db, run))
    decreases |run|
  {
    if run != [] {
      StepKeepsInv(db, run[0]);
      RunKeepsInv(Step(db, run[0]).0, run[1..]);
    }
  }

  /** A fresh installation: limits set, nothing used. */
  predicate Unused(quotas: map<string, Quota>) {
    forall t | t in quotas ::
      && quotas[t].gpuUsed == quotas[t].memUsed == quotas[t].jobUsed == 0
      && quotas[t].gpuQuota >= 0 && quotas[t].memQuota >= 0 && quotas[t].jobQuota >= 0
  }

  function Start(quotas: map<string, Quota>): Db { Db([], quotas, []) }

  /** In every run of create, apply, patch and delete, with runtime-status writes from stale copies in
      between, each tenant's used columns equal the sums over its live services plus the reservations
      whose release was lost, and stay within the limits. */
  lemma Conservation(quotas: map<string, Quota>, run: seq<Request>, t: string)
    requires Unused(quotas) && t in After(Start(quotas), run).quotas
    ensures Balanced(After(Start(quotas), run), t)
  {
    RunKeepsInv(Start(quotas), run);
  }

  lemma {:induction false} TotalZeroIffNone(rows: seq<Service>, t: string)
    ensures Total(rows, t, One) >= 0
    ensures Total(rows, t, One) == 0 <==> forall i | 0 <= i < |rows| :: rows[i].tenant != t
    ensures Total(rows, t, One) == 0 ==> Total(rows, t, Gpus) == 0 && Total(rows, t, Mem) == 0
    decreases |rows|
  {
    if rows != [] {
      TotalZeroIffNone(rows[..|rows| - 1], t);
      assert forall i | 0 <= i < |rows| - 1 :: rows[i] == rows[..|rows| - 1][i];
    }
  }

  // ---- when a reservation is lost ----

  /** A create reserves, fails to insert and fails to release again. */
  predicate LosesReservation(db: Db, tenant: string, spec: Spec, id: string, insertOk: bool, releaseOk: bool) {
    tenant in db.quotas && Fits(db.quotas[tenant], spec.gpus, MemGB(spec), 1)
    && (!insertOk || HasId(db.services, id)) && !releaseOk
  }

  /** The request is such a create, or an apply that finds no service of that name and creates one. */
  predicate LosesRelease(db: Db, r: Request) {
    (r.Create? || r.Apply?)
    && var spec := Normalize(r.spec);
       Valid(spec) && HasTenant(r.tenant)
       && (r.Apply? ==> FindByName(db.services, r.tenant.value, spec.name, r.pick).None?)
       && LosesReservation(db, r.tenant.value, spec, r.id, r.insertOk, r.releaseOk)
  }

  /** One step loses a reservation exactly if its request is one of those, and then its own. */
  lemma LeaksExactly(db: Db, r: Request)
    ensures Step(db, r).0.leaks
            == db.leaks + (if LosesRelease(db, r)
                           then [Service(r.id, r.tenant.value, Normalize(r.spec), "Pending", "", "", 0, "")] else [])
  {
    hide Normalize, Valid, MemGB, Fits;
  }

  /** How many of the run's requests lose a reservation of the tenant. */
  function LostReleases(db: Db, run: seq<Request>, t: string): nat
    decreases |run|
  {
    if run == [] then 0
    else (if LosesRelease(db, run[0]) && run[0].tenant.value == t then 1 else 0)
         + LostReleases(Step(db, run[0]).0, run[1..], t)
  }

  lemma {:induction false} LeaksAreLostReleases(db: Db, run: seq<Request>, t: string)
    ensures Total(After(db, run).leaks, t, One) == Total(db.leaks, t, One) + LostReleases(db, run, t)
    decreases |run|
  {
    if run != [] {
      var r := run[0];
      LeaksExactly(db, r);
      if LosesRelease(db, r) {
        AppendTotals(db.leaks, Service(r.id, r.tenant.value, Normalize(r.spec), "Pending", "", "", 0, ""), t);
      } else {
        assert db.leaks + [] == db.leaks;
      }
      hide Step, LosesRelease, Total, Normalize;
      LeaksAreLostReleases(Step(db, r).0, run[1..], t);
    }
  }

  /** The used columns equal the sums over the live services exactly when no request of the run lost a
      reservation of the tenant: reserved it, failed to insert and failed to release. */
  lemma ExactUnlessReleaseLost(quotas: map<string, Quota>, run: seq<Request>, t: string)
    requires Unused(quotas) && t in After(Start(quotas), run).quotas
    ensures var db := After(Start(quotas), run);
            var q := db.quotas[t];
            (&& q.gpuUsed == Total(db.services, t, Gpus) && q.memUsed == Total(db.services, t, Mem)
             && q.jobUsed == Total(db.services, t, One))
            <==> LostReleases(Start(quotas), run, t) == 0
    ensures LostReleases(Start(quotas), run, t) == 0
            <==> forall i | 0 <= i < |After(Start(quotas), run).leaks| :: After(Start(quotas), run).leaks[i].tenant != t
  {
    Conservation(quotas, run, t);
    TotalZeroIffNone(After(Start(quotas), run).leaks, t);
    LeaksAreLostReleases(Start(quotas), run, t);
    assert Total([], t, One) == 0;
    hide Total, After, LostReleases;
  }

  /** It happens: one failing create that fits leaves its amounts used with no service there. */
  lemma LostReleaseLeaves(quotas: map<string, Quota>, tenant: string, raw: Spec, id: string)
    requires Unused(quotas) && tenant != "" && tenant in quotas && Valid(Normalize(raw))
    requires Fits(quotas[tenant], Normalize(raw).gpus, MemGB(Normalize(raw)), 1)
    ensures var db := After(Start(quotas), [Create(Some(tenant), raw, id, false, false)]);
            && db.services == [] && tenant in db.quotas
            && db.quotas[tenant].gpuUsed == Normalize(raw).gpus && db.quotas[tenant].memUsed == MemGB(Normalize(raw))
            && db.quotas[tenant].jobUsed == 1
  {
    var r := Create(Some(tenant), raw, id, false, false);
    assert [r][1..] == [];
    assert After(Start(quotas), [r]) == Step(Start(quotas), r).0;
    hide Normalize, Valid, MemGB;
  }

  /** Whether the request's release, should it come to one, succeeds. */
  predicate ReleaseHolds(r: Request) {
    (r.Create? || r.Apply?) ==> r.releaseOk
  }

  lemma {:induction false} NoLeakWithoutLostRelease(db: Db, run: seq<Request>)
    requires forall r | r in run :: ReleaseHolds(r)
    ensures After(db, run).leaks == db.leaks
    decreases |run|
  {
    if run != [] {
      assert run[0] in run && forall r | r in run[1..] :: r in run;
      LeaksKept(db, run[0]);
      NoLeakWithoutLostRelease(Step(db, run[0]).0, run[1..]);
    }
  }

  lemma LeaksKept(db: Db, r: Request)
    requires ReleaseHolds(r)
    ensures Step(db, r).0.leaks == db.leaks
  {
  }

  /** The pointwise statement for runs in which every compensating release succeeds. */
  lemma ConservationOfLiveServices(quotas: map<string, Quota>, run: seq<Request>, t: string)
    requires Unused(quotas) && t in After(Start(quotas), run).quotas
    requires forall r | r in run :: ReleaseHolds(r)
    ensures var db := After(Start(quotas), run);
            var q := db.quotas[t];
            && q.gpuUsed == Total(db.services, t, Gpus) <= q.gpuQuota
            && q.memUsed == Total(db.services, t, Mem) <= q.memQuota
            && q.jobUsed == Total(db.services, t, One) <= q.jobQuota
  {
    NoLeakWithoutLostRelease(Start(quotas), run);
    Conservation(quotas, run, t);
  }

  // ---- what the column lists leave out ----

  /** A successful PATCH never stores the emptied runtime name by which it asks for a redeployment,
      because that column is not among those it writes; the row asks for one exactly if it did before. */
  lemma PatchKeepsRuntimeName(db: Db, scope: string, id: string, p: Patch)
    requires Inv(db) && PatchStep(db, scope, id, p, true).1.Ok?
    ensures var v := PatchStep(db, scope, id, p, true).0;
            var i := FindById(db.services, scope, id).value;
            && v.services == db.services[i := db.services[i].(spec := ApplyPatch(p, db.services[i].spec))]
            && v.services[i].kserveName == db.services[i].kserveName
  {
    var i := FindById(db.services, scope, id).value;
    var row := db.services[i];
    var spec := ApplyPatch(p, row.spec);
    var s := row.(spec := spec, kserveName := if DeploymentChanged(row.spec, spec) then "" else row.kserveName);
    UpdateIsAt(db.services, i, s, SpecColumns);
  }

  /** A successful apply stores the whole specification except the cluster: the row then equals the
      specification exactly when the cluster was already the one asked for. */
  lemma ApplyStoresAllButCluster(db: Db, tenant: string, i: nat, spec: Spec)
    requires Inv(db) && i < |db.services| && ApplyTo(db, tenant, i, spec, true).1.Ok?
    ensures var v := ApplyTo(db, tenant, i, spec, true).0;
            && |v.services| == |db.services|
            && v.services[i].spec == spec.(clusterId := db.services[i].spec.clusterId)
            && (v.services[i].spec == spec <==> db.services[i].spec.clusterId == spec.clusterId)
            && (DeploymentChanged(db.services[i].spec, spec) ==> v.services[i].kserveName == "")
            && forall j | 0 <= j < |db.services| && j != i :: v.services[j] == db.services[j]
  {
    var row := db.services[i];
    var s := row.(spec := spec, kserveName := if DeploymentChanged(row.spec, spec) then "" else row.kserveName);
    UpdateIsAt(db.services, i, s, ApplyColumns);
  }
}
