/** What the inference-service handlers answer and whom a request concerns, in terms of the fields of the
    request and of the tables. */
module QuotaDecisions {
  import opened Base
  import opened Inference
  import opened QuotaConservation
  import opened QuotaAmounts

  // ---- which specifications are taken, and what is stored of them ----

  /** A specification that can be stored; a maximum of zero stands for one that fits. */
  predicate WellFormed(raw: Spec) {
    && raw.name != "" && raw.minReplicas >= 0 && (raw.maxReplicas == 0 || raw.maxReplicas >= raw.minReplicas)
    && raw.targetReplicas >= 0 && 0 <= raw.canaryWeight <= 100 && raw.gpus >= 0
  }

  lemma ValidExactly(raw: Spec)
    ensures Valid(Normalize(raw)) <==> WellFormed(raw)
  {
  }

  /** What is stored differs from what was given only where a field was left out: the cluster and the
      framework have names, the maximum is the least positive one that the minimum allows, and the
      target is the minimum. */
  lemma DefaultsFilled(raw: Spec)
    ensures var s := Normalize(raw);
            && s == raw.(clusterId := s.clusterId, framework := s.framework, maxReplicas := s.maxReplicas,
                         targetReplicas := s.targetReplicas)
            && (raw.clusterId != "" ==> s.clusterId == raw.clusterId) && (raw.clusterId == "" ==> s.clusterId == "cluster-001")
            && (raw.framework != "" ==> s.framework == raw.framework) && (raw.framework == "" ==> s.framework == "custom")
            && (raw.maxReplicas != 0 ==> s.maxReplicas == raw.maxReplicas)
            && (raw.maxReplicas == 0 ==> s.maxReplicas >= 1 && s.maxReplicas >= raw.minReplicas
                                         && (s.maxReplicas == 1 || s.maxReplicas == raw.minReplicas))
            && (raw.targetReplicas != 0 ==> s.targetReplicas == raw.targetReplicas)
            && (raw.targetReplicas == 0 ==> s.targetReplicas == raw.minReplicas)
    ensures Normalize(Normalize(raw)) == Normalize(raw)
  {
  }

  // ---- create ----

  /** So many GPUs, so much memory and one more service are within the limits of the row. */
  predicate Within(q: Quota, gpus: int, gb: int) {
    q.gpuUsed + gpus <= q.gpuQuota && q.memUsed + gb <= q.memQuota && q.jobUsed + 1 <= q.jobQuota
  }

  predicate Signed(tenant: Option<string>) {
    tenant.Some? && tenant.value != ""
  }

  /** A create is a bad request exactly if there is no tenant or the specification is not well formed; it
      conflicts exactly if the tenant has no quota row or the row has no room for the amounts; it creates
      exactly if the insert then succeeds. Then the row grows by the amounts and one service is added. */
  lemma CreateAnswersExactly(db: Db, tenant: Option<string>, raw: Spec, id: string, insertOk: bool, releaseOk: bool, gb: int)
    requires ChargedFor(gb, raw.gpus, raw.gpuMemory)
    ensures var (v, status) := Step(db, Create(tenant, raw, id, insertOk, releaseOk));
            && (status == BadRequest <==> !Signed(tenant) || !WellFormed(raw))
            && (status == Conflict <==> Signed(tenant) && WellFormed(raw)
                                        && (tenant.value !in db.quotas || !Within(db.quotas[tenant.value], raw.gpus, gb)))
            && (status == Created <==> Signed(tenant) && WellFormed(raw) && tenant.value in db.quotas
                                       && Within(db.quotas[tenant.value], raw.gpus, gb)
                                       && insertOk && forall i | 0 <= i < |db.services| :: db.services[i].id != id)
            && (status == Created ==> v.leaks == db.leaks && GrowsBy(db, v, tenant.value, raw, id, gb))
            && (status in {BadRequest, Conflict} ==> v == db)
  {
    ValidExactly(raw);
    DefaultsFilled(raw);
    ChargeIs(Normalize(raw));
    assert ChargedFor(gb, Normalize(raw).gpus, Normalize(raw).gpuMemory);
    hide Normalize, Valid, MemGB, WellFormed, ChargedFor;
  }

  predicate GrowsBy(db: Db, v: Db, tenant: string, raw: Spec, id: string, gb: int)
    requires tenant in db.quotas
  {
    var q := db.quotas[tenant];
    && v.services == db.services + [Service(id, tenant, Normalize(raw), "Pending", "", "", 0, "")]
    && v.quotas == db.quotas[tenant := q.(gpuUsed := q.gpuUsed + raw.gpus, memUsed := q.memUsed + gb, jobUsed := q.jobUsed + 1)]
  }

  // ---- apply ----

  /** Some service of the tenant has the name. */
  predicate Named(db: Db, tenant: string, name: string) {
    exists i | 0 <= i < |db.services| :: db.services[i].tenant == tenant && db.services[i].spec.name == name
  }

  lemma FoundByName(db: Db, tenant: string, name: string, pick: nat)
    ensures FindByName(db.services, tenant, name, pick).Some? <==> Named(db, tenant, name)
  {
    hide FindByName;
    var r := FindByName(db.services, tenant, name, pick);
    if r.Some? {
      assert db.services[r.value].tenant == tenant && db.services[r.value].spec.name == name;
    }
  }

  /** An apply without a service of that name is a create. */
  lemma ApplyCreates(db: Db, tenant: Option<string>, raw: Spec, pick: nat, ok: bool, id: string, insertOk: bool, releaseOk: bool)
    requires Signed(tenant) ==> !Named(db, tenant.value, raw.name)
    ensures Step(db, Apply(tenant, raw, pick, ok, id, insertOk, releaseOk)) == Step(db, Create(tenant, raw, id, insertOk, releaseOk))
  {
    DefaultsFilled(raw);
    if Signed(tenant) {
      FoundByName(db, tenant.value, raw.name, pick);
    }
    hide Normalize, Valid, FindByName, Named;
  }

  /** An update is taken exactly if the row has room for the new amounts once the old ones are given back,
      and the transaction commits. It conflicts exactly if there is no such room. */
  lemma ApplyAnswersExactly(db: Db, tenant: string, i: nat, raw: Spec, ok: bool, was: int, gb: int)
    requires Inv(db) && i < |db.services| && db.services[i].tenant == tenant && WellFormed(raw)
    requires ChargedFor(was, db.services[i].spec.gpus, db.services[i].spec.gpuMemory)
    requires ChargedFor(gb, raw.gpus, raw.gpuMemory)
    ensures var q, prior := db.quotas[tenant], db.services[i].spec;
            var (v, status) := ApplyTo(db, tenant, i, Normalize(raw), ok);
            var room := q.gpuUsed - prior.gpus + raw.gpus <= q.gpuQuota && q.memUsed - was + gb <= q.memQuota;
            && (status == Conflict <==> !room)
            && (status == Ok <==> room && ok)
            && (status != Ok ==> v == db)
            && (status == Ok ==>
                  v.quotas == db.quotas[tenant := q.(gpuUsed := q.gpuUsed - prior.gpus + raw.gpus, memUsed := q.memUsed - was + gb)])
  {
    DefaultsFilled(raw);
    ChargeIs(Normalize(raw));
    ChargeIs(db.services[i].spec);
    ClampsNeverFire(db, i);
    assert Balanced(db, tenant);
    assert db.quotas[tenant := db.quotas[tenant]] == db.quotas;
    hide Normalize, MemGB, ChargedFor, UpdateWhere, DeploymentChanged, Total, RowsInv;
  }

  // ---- patch and delete ----

  /** The caller sees a service with this identifier; the empty scope sees all tenants. */
  predicate Sees(db: Db, scope: string, id: string) {
    exists i | 0 <= i < |db.services| :: db.services[i].id == id && (scope == "" || db.services[i].tenant == scope)
  }

  lemma FoundById(db: Db, scope: string, id: string)
    ensures FindById(db.services, scope, id).Some? <==> Sees(db, scope, id)
    ensures FindById(db.services, scope, id).Some? ==>
              var i := FindById(db.services, scope, id).value;
              db.services[i].id == id && (scope == "" || db.services[i].tenant == scope)
  {
    hide FindById;
    var r := FindById(db.services, scope, id);
    if r.Some? {
      assert db.services[r.value].id == id && (scope == "" || db.services[r.value].tenant == scope);
    }
  }

  /** A delete is done exactly if the caller sees the service and the transaction commits; there is
      nothing to find exactly if the caller sees none. Unless it is done it changes nothing. */
  lemma DeleteAnswersExactly(db: Db, scope: string, id: string, ok: bool)
    ensures var (v, status) := DeleteStep(db, scope, id, ok);
            && (status == NotFound <==> !Sees(db, scope, id))
            && (status == NoContent <==> Sees(db, scope, id) && ok)
            && (status != NoContent ==> v == db)
  {
    FoundById(db, scope, id);
    hide FindById, Sees, DeleteWhere, MemGB;
  }

  /** A delete that is done removes that one service, and gives back what it was charged. */
  lemma DeleteGivesBack(db: Db, scope: string, i: nat, gb: int)
    requires Inv(db) && i < |db.services| && (scope == "" || db.services[i].tenant == scope)
    requires ChargedFor(gb, db.services[i].spec.gpus, db.services[i].spec.gpuMemory)
    ensures var s := db.services[i];
            var q, v := db.quotas[s.tenant], DeleteStep(db, scope, s.id, true).0;
            && v.leaks == db.leaks && (forall x :: x in v.services <==> x in db.services && x.id != s.id)
            && v.quotas == db.quotas[s.tenant := q.(gpuUsed := q.gpuUsed - s.spec.gpus, memUsed := q.memUsed - gb,
                                                    jobUsed := q.jobUsed - 1)]
  {
    var s := db.services[i];
    FoundAt(db, scope, i);
    hide FindById, DeleteWhere;
    DeleteIsAt(db.services, i, s.id);
    ClampsNeverFire(db, i);
    ChargeIs(s.spec);
    Removed(db.services, i);
    hide FindById, MemGB, DeleteWhere, ChargedFor, Balanced, Sees, Inv, Released;
  }

  lemma Removed(rows: seq<Service>, i: nat)
    requires DistinctIds(rows) && i < |rows|
    ensures forall s :: s in rows[..i] + rows[i + 1..] <==> s in rows && s.id != rows[i].id
  {
    var rest := rows[..i] + rows[i + 1..];
    forall s | s in rows && s.id != rows[i].id ensures s in rest {
      var j :| 0 <= j < |rows| && rows[j] == s;
      assert rest[if j < i then j else j - 1] == s;
    }
    forall s | s in rest ensures s in rows && s.id != rows[i].id {
      var j :| 0 <= j < |rest| && rest[j] == s;
      assert s == rows[if j < i then j else j + 1];
    }
  }

  /** A patch names none of the fields that decide what a service is charged and where it runs. */
  predicate LeavesRestAlone(p: Patch) {
    && p.name.None? && p.clusterId.None? && p.framework.None? && p.runtime.None? && p.cpu.None? && p.memory.None?
    && p.gpus.None? && p.gpuMemory.None? && p.gpuCores.None? && p.chip.None?
  }

  /** A patch of a service that the caller sees is taken exactly if it leaves the rest alone, its numbers
      are in range, the maximum it results in is not below the minimum, and the write succeeds. If it is
      not taken nothing changes. */
  lemma PatchAnswersExactly(db: Db, scope: string, i: nat, p: Patch, ok: bool)
    requires Inv(db) && i < |db.services| && (scope == "" || db.services[i].tenant == scope)
    ensures var row := db.services[i];
            var (v, status) := PatchStep(db, scope, row.id, p, ok);
            var lo := if p.minReplicas.Some? then p.minReplicas.value else row.spec.minReplicas;
            var hi := if p.maxReplicas.Some? then p.maxReplicas.value else row.spec.maxReplicas;
            && (status == Ok <==> LeavesRestAlone(p) && RangesHold(p) && hi >= lo && ok)
            && (status == BadRequest <==> !LeavesRestAlone(p) || !RangesHold(p) || hi < lo)
            && (status != Ok ==> v == db)
  {
    FoundAt(db, scope, i);
    PatchChecks(p);
    hide FindById, UpdateWhere, DeploymentChanged, RejectsImmutable, ValidPatch, LeavesRestAlone, RangesHold, Inv;
  }

  lemma FoundAt(db: Db, scope: string, i: nat)
    requires Inv(db) && i < |db.services| && (scope == "" || db.services[i].tenant == scope)
    ensures FindById(db.services, scope, db.services[i].id) == Some(i)
  {
    assert Sees(db, scope, db.services[i].id);
    FoundById(db, scope, db.services[i].id);
    hide FindById, Sees, Balanced;
  }

  lemma PatchChecks(p: Patch)
    ensures RejectsImmutable(p) <==> !LeavesRestAlone(p)
    ensures ValidPatch(p) <==> RangesHold(p)
  {
  }

  /** A patch that is taken gives the service the given values where there are any, and leaves its others,
      every other service and the quota rows as they were. */
  lemma PatchTakesGiven(db: Db, scope: string, i: nat, p: Patch)
    requires Inv(db) && i < |db.services| && (scope == "" || db.services[i].tenant == scope)
    requires PatchStep(db, scope, db.services[i].id, p, true).1 == Ok
    ensures var row := db.services[i];
            var v := PatchStep(db, scope, row.id, p, true).0;
            && |v.services| == |db.services| && v.quotas == db.quotas && v.leaks == db.leaks
            && v.services == db.services[i := row.(spec := v.services[i].spec)]
            && TakesGiven(p, row.spec, v.services[i].spec)
  {
    var row := db.services[i];
    FoundAt(db, scope, i);
    var spec := ApplyPatch(p, row.spec);
    assert spec.clusterId == row.spec.clusterId && TakesGiven(p, row.spec, spec);
    hide ApplyPatch, DeploymentChanged, FindById, TakesGiven, RejectsImmutable, ValidPatch;
    var s := row.(spec := spec, kserveName := if DeploymentChanged(row.spec, spec) then "" else row.kserveName);
    UpdateIsAt(db.services, i, s, SpecColumns);
    hide UpdateWhere, Inv;
    assert Written(row, s, SpecColumns) == row.(spec := spec);
  }

  /** Numbers that are given are not negative, and a canary weight is a percentage. */
  predicate RangesHold(p: Patch) {
    && !(p.targetReplicas.Some? && p.targetReplicas.value < 0) && !(p.minReplicas.Some? && p.minReplicas.value < 0)
    && !(p.maxReplicas.Some? && p.maxReplicas.value < 0)
    && !(p.canaryWeight.Some? && (p.canaryWeight.value < 0 || p.canaryWeight.value > 100))
  }

  /** `after` is `before` with the values that the patch gives. */
  predicate TakesGiven(p: Patch, before: Spec, after: Spec) {
    && after == before.(targetReplicas := after.targetReplicas, canaryWeight := after.canaryWeight,
                        minReplicas := after.minReplicas, maxReplicas := after.maxReplicas, storageUri := after.storageUri,
                        image := after.image, runtimeVersion := after.runtimeVersion)
    && Given(p.targetReplicas, before.targetReplicas, after.targetReplicas)
    && Given(p.canaryWeight, before.canaryWeight, after.canaryWeight)
    && Given(p.minReplicas, before.minReplicas, after.minReplicas)
    && Given(p.maxReplicas, before.maxReplicas, after.maxReplicas)
    && Given(p.storageUri, before.storageUri, after.storageUri)
    && Given(p.image, before.image, after.image)
    && Given(p.runtimeVersion, before.runtimeVersion, after.runtimeVersion)
  }

  predicate Given<T(==)>(o: Option<T>, before: T, after: T) {
    match o case None => after == before case Some(x) => after == x
  }

  // ---- whose rows a request concerns ----

  /** The tenant that a request acts for; the empty one may act for all. */
  function ActsFor(r: Request): string {
    match r
    case Create(tenant, _, _, _, _) => if tenant.Some? then tenant.value else "nobody"
    case Apply(tenant, _, _, _, _, _, _) => if tenant.Some? then tenant.value else "nobody"
    case PatchService(scope, _, _, _) => scope
    case Delete(scope, _, _) => scope
    case WriteStatus(s) => s.tenant
  }

  /** The tenant's services and quota row are the same in both. */
  ghost predicate SameFor(db: Db, v: Db, t: string) {
    && (forall s: Service | s.tenant == t :: s in db.services <==> s in v.services)
    && (t in db.quotas <==> t in v.quotas) && (t in db.quotas ==> v.quotas[t] == db.quotas[t])
  }

  lemma RowReplaced(rows: seq<Service>, i: nat, s: Service, t: string)
    requires i < |rows| && rows[i].tenant != t && s.tenant != t
    ensures forall x: Service | x.tenant == t :: x in rows <==> x in rows[i := s]
  {
    var more := rows[i := s];
    forall x: Service | x.tenant == t && x in rows ensures x in more {
      var j :| 0 <= j < |rows| && rows[j] == x;
      assert more[j] == x;
    }
    forall x: Service | x.tenant == t && x in more ensures x in rows {
      var j :| 0 <= j < |more| && more[j] == x;
      assert rows[j] == x;
    }
  }

  lemma CreateIsOwn(db: Db, r: Request, t: string)
    requires r.Create? && ActsFor(r) != t && ActsFor(r) != ""
    ensures SameFor(db, Step(db, r).0, t)
  {
    hide Normalize, Valid, MemGB, Fits;
  }

  lemma ApplyIsOwn(db: Db, r: Request, t: string)
    requires Inv(db) && r.Apply? && ActsFor(r) != t && ActsFor(r) != ""
    ensures SameFor(db, Step(db, r).0, t)
  {
    var spec := Normalize(r.spec);
    hide Normalize, Valid, MemGB, Fits, SameFor;
    if !HasTenant(r.tenant) || !Valid(spec) {
      assert SameFor(db, db, t) by { SameAsItself(db, t); }
    } else {
      var i := FindByName(db.services, r.tenant.value, spec.name, r.pick);
      hide FindByName;
      if i.None? {
        CreatedIsOwn(db, r.tenant.value, spec, r.id, r.insertOk, r.releaseOk, t);
      } else {
        UpdatedIsOwn(db, r.tenant.value, i.value, spec, r.ok, t);
      }
    }
  }

  lemma SameAsItself(db: Db, t: string)
    ensures SameFor(db, db, t)
  {
  }

  lemma CreatedIsOwn(db: Db, tenant: string, spec: Spec, id: string, insertOk: bool, releaseOk: bool, t: string)
    requires tenant != t
    ensures SameFor(db, CreateFromSpec(db, tenant, spec, id, insertOk, releaseOk).0, t)
  {
    hide MemGB, Fits;
  }

  lemma UpdatedIsOwn(db: Db, tenant: string, i: nat, spec: Spec, ok: bool, t: string)
    requires Inv(db) && i < |db.services| && db.services[i].tenant == tenant != t
    ensures SameFor(db, ApplyTo(db, tenant, i, spec, ok).0, t)
  {
    var row := db.services[i];
    var s := row.(spec := spec, kserveName := if DeploymentChanged(row.spec, spec) then "" else row.kserveName);
    UpdateIsAt(db.services, i, s, ApplyColumns);
    RowReplaced(db.services, i, Written(row, s, ApplyColumns), t);
    hide UpdateWhere, DeploymentChanged, MemGB, RowsInv, Balanced;
  }

  lemma PatchIsOwn(db: Db, r: Request, t: string)
    requires Inv(db) && r.PatchService? && r.scope != t && r.scope != ""
    ensures SameFor(db, Step(db, r).0, t)
  {
    FoundById(db, r.scope, r.id);
    hide Sees;
    var i := FindById(db.services, r.scope, r.id);
    if i.Some? {
      var v := Step(db, r).0;
      PatchAnswersExactly(db, r.scope, i.value, r.patch, r.ok);
      hide FindById, Inv, PatchStep, TakesGiven;
      if r.ok && PatchStep(db, r.scope, r.id, r.patch, r.ok).1 == Ok {
        PatchTakesGiven(db, r.scope, i.value, r.patch);
        RowReplaced(db.services, i.value, v.services[i.value], t);
      }
    }
  }

  lemma DeleteIsOwn(db: Db, r: Request, t: string)
    requires Inv(db) && r.Delete? && r.scope != t && r.scope != ""
    ensures SameFor(db, Step(db, r).0, t)
  {
    hide FindById, DeleteStep, ChargedFor, MemGB, Sees, SameFor;
    FoundById(db, r.scope, r.id);
    DeleteAnswersExactly(db, r.scope, r.id, r.ok);
    var found := FindById(db.services, r.scope, r.id);
    if found.Some? && r.ok {
      var i := found.value;
      ChargeIs(db.services[i].spec);
      DeleteGivesBack(db, r.scope, i, MemGB(db.services[i].spec));
      WithoutOneOf(db, Step(db, r).0, i, t);
    } else {
      SameAsItself(db, t);
    }
  }

  lemma WithoutOneOf(db: Db, v: Db, i: nat, t: string)
    requires Inv(db) && i < |db.services| && db.services[i].tenant != t
    requires forall x :: x in v.services <==> x in db.services && x.id != db.services[i].id
    requires v.quotas.Keys == db.quotas.Keys
    requires forall k | k in db.quotas && k != db.services[i].tenant :: v.quotas[k] == db.quotas[k]
    ensures SameFor(db, v, t)
  {
    assert forall s | s in db.services && s.id == db.services[i].id :: s == db.services[i];
    hide Balanced;
  }

  /** A request of one tenant changes no other tenant's services and no other tenant's quota row. */
  lemma RequestIsOwn(db: Db, r: Request, t: string)
    requires Inv(db) && ActsFor(r) != t && ActsFor(r) != "" && !r.WriteStatus?
    ensures SameFor(db, Step(db, r).0, t)
  {
    hide Inv, SameFor, Step;
    match r {
      case Create(_, _, _, _, _) => CreateIsOwn(db, r, t);
      case Apply(_, _, _, _, _, _, _) => ApplyIsOwn(db, r, t);
      case PatchService(_, _, _, _) => PatchIsOwn(db, r, t);
      case Delete(_, _, _) => DeleteIsOwn(db, r, t);
    }
  }

  /** Nor does any run of requests of other tenants. */
  lemma {:induction false} TenantsAreIsolated(db: Db, run: seq<Request>, t: string)
    requires Inv(db) && forall r | r in run :: ActsFor(r) != t && ActsFor(r) != "" && !r.WriteStatus?
    ensures SameFor(db, After(db, run), t)
    decreases |run|
  {
    if run == [] {
      SameAsItself(db, t);
    } else {
      var r := run[0];
      assert r in run && forall x | x in run[1..] :: x in run;
      RequestIsOwn(db, r, t);
      StepKeepsInv(db, r);
      hide Step, Inv, ActsFor;
      TenantsAreIsolated(Step(db, r).0, run[1..], t);
    }
  }

  // ---- what is stored ----

  /** A stored specification: named, in range, and with a maximum not below its minimum. */
  predicate Storable(s: Spec) {
    s.name != "" && 0 <= s.minReplicas <= s.maxReplicas && s.targetReplicas >= 0 && 0 <= s.canaryWeight <= 100 && s.gpus >= 0
  }

  ghost predicate AllStorable(db: Db) {
    forall i | 0 <= i < |db.services| :: Storable(db.services[i].spec)
  }

  lemma StepKeepsStorable(db: Db, r: Request)
    requires Inv(db) && AllStorable(db)
    ensures AllStorable(Step(db, r).0)
  {
    hide Normalize, MemGB, Fits, Inv;
    if r.Delete? {
      KeptAreStorable(db, r);
    } else if r.PatchService? {
      PatchedAreStorable(db, r);
    } else {
      hide Valid, Storable, FindById, FindByName, DeploymentChanged;
      if r.Create? || r.Apply? {
        ValidIsStorable(Normalize(r.spec));
      }
      SpecsKept(db);
    }
  }

  lemma ValidIsStorable(s: Spec)
    ensures Valid(s) ==> Storable(s) && forall c :: Storable(s.(clusterId := c))
  {
  }

  lemma SpecsKept(db: Db)
    requires AllStorable(db)
    ensures forall i, c | 0 <= i < |db.services| :: Storable(db.services[i].spec.(clusterId := c))
  {
  }

  lemma {:induction false} KeptRows(rows: seq<Service>, id: string)
    ensures forall i | 0 <= i < |DeleteWhere(rows, id)| :: DeleteWhere(rows, id)[i] in rows
    decreases |rows|
  {
    if rows != [] {
      var n := |rows| - 1;
      KeptRows(rows[..n], id);
      assert rows[n] in rows && forall x | x in rows[..n] :: x in rows;
    }
  }

  lemma KeptAreStorable(db: Db, r: Request)
    requires r.Delete? && AllStorable(db)
    ensures AllStorable(Step(db, r).0)
  {
    KeptRows(db.services, r.id);
    hide DeleteWhere, Storable, FindById, MemGB;
  }

  lemma PatchedAreStorable(db: Db, r: Request)
    requires r.PatchService? && AllStorable(db)
    ensures AllStorable(Step(db, r).0)
  {
    hide FindById, DeploymentChanged;
    var v := Step(db, r).0;
    if v != db {
      var i := FindById(db.services, r.scope, r.id).value;
      assert Storable(db.services[i].spec);
      assert Storable(ApplyPatch(r.patch, db.services[i].spec));
      forall j | 0 <= j < |v.services| ensures Storable(v.services[j].spec) {
        assert Storable(db.services[j].spec);
      }
    }
  }

  /** In every run every stored service is one that could be created. */
  lemma {:induction false} StoredServicesAreStorable(db: Db, run: seq<Request>)
    requires Inv(db) && AllStorable(db)
    ensures AllStorable(After(db, run))
    decreases |run|
  {
    if run != [] {
      StepKeepsStorable(db, run[0]);
      StepKeepsInv(db, run[0]);
      hide Step, Inv, AllStorable;
      StoredServicesAreStorable(Step(db, run[0]).0, run[1..]);
    }
  }
}
