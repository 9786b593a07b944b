/** The inference-service handlers of backend/internal/api/inference.go and dto_inference.go with the
    tables and transactions of backend/internal/storage (storage.go, enterprise.go). A handler call is
    one step; a transaction commits or leaves the tables as they were. */
module Inference {
  import opened Base

  datatype Spec = Spec(
    name: string, clusterId: string, framework: string, runtime: string, storageUri: string,
    image: string, runtimeVersion: string, minReplicas: int, maxReplicas: int, cpu: string,
    memory: string, gpus: int, gpuMemory: int, gpuCores: int, chip: string,
    targetReplicas: int, canaryWeight: int
  )

  /** The body of a PATCH: None for a field that is absent. */
  datatype Patch = Patch(
    targetReplicas: Option<int>, canaryWeight: Option<int>, minReplicas: Option<int>, maxReplicas: Option<int>,
    storageUri: Option<string>, image: Option<string>, runtimeVersion: Option<string>,
    name: Option<string>, clusterId: Option<string>, framework: Option<string>, runtime: Option<string>,
    cpu: Option<string>, memory: Option<string>, gpus: Option<int>, gpuMemory: Option<int>,
    gpuCores: Option<int>, chip: Option<string>
  )

  datatype Service = Service(
    id: string, tenant: string, spec: Spec,
    status: string, url: string, kserveName: string, readyReplicas: int, failureReason: string
  )

  datatype Quota = Quota(gpuQuota: int, gpuUsed: int, memQuota: int, memUsed: int, jobQuota: int, jobUsed: int)

  /** The tables, and the services whose reservation was neither turned into a row nor released. */
  datatype Db = Db(services: seq<Service>, quotas: map<string, Quota>, leaks: seq<Service>)

  datatype Status = Created | Ok | NoContent | BadRequest | Conflict | ServerError | NotFound

  // ---- specifications of a service ----

  function Max(a: int, b: int): int { if a >= b then a else b }

  function Normalize(s: Spec): Spec {
    var t := s.(clusterId := if s.clusterId == "" then "cluster-001" else s.clusterId,
                framework := if s.framework == "" then "custom" else s.framework);
    var u := t.(maxReplicas := if t.maxReplicas == 0 then Max(1, t.minReplicas) else t.maxReplicas);
    u.(targetReplicas := if u.targetReplicas == 0 then u.minReplicas else u.targetReplicas)
  }

  predicate Valid(s: Spec) {
    && s.name != "" && s.minReplicas >= 0 && s.maxReplicas >= s.minReplicas
    && s.targetReplicas >= 0 && 0 <= s.canaryWeight <= 100 && s.gpus >= 0
  }

  /** The memory a service is charged for, in GB. */
  function MemGB(s: Spec): int {
    if s.gpuMemory > 0 then Max(1, s.gpuMemory * s.gpus / 1024)
    else if s.gpus > 0 then Max(40, s.gpus * 40)
    else 1
  }

  /** A PATCH may not name a field that only a full specification may change. */
  predicate RejectsImmutable(p: Patch) {
    || p.name.Some? || p.clusterId.Some? || p.framework.Some? || p.runtime.Some? || p.cpu.Some?
    || p.memory.Some? || p.gpus.Some? || p.gpuMemory.Some? || p.gpuCores.Some? || p.chip.Some?
  }

  predicate ValidPatch(p: Patch) {
    && (p.targetReplicas.Some? ==> p.targetReplicas.value >= 0)
    && (p.canaryWeight.Some? ==> 0 <= p.canaryWeight.value <= 100)
    && (p.minReplicas.Some? ==> p.minReplicas.value >= 0)
    && (p.maxReplicas.Some? ==> p.maxReplicas.value >= 0)
  }

  function Or<T>(o: Option<T>, otherwise: T): T {
    if o.Some? then o.value else otherwise
  }

  function ApplyPatch(p: Patch, s: Spec): Spec {
    s.(targetReplicas := Or(p.targetReplicas, s.targetReplicas), canaryWeight := Or(p.canaryWeight, s.canaryWeight),
       minReplicas := Or(p.minReplicas, s.minReplicas), maxReplicas := Or(p.maxReplicas, s.maxReplicas),
       storageUri := Or(p.storageUri, s.storageUri), image := Or(p.image, s.image),
       runtimeVersion := Or(p.runtimeVersion, s.runtimeVersion))
  }

  predicate DeploymentChanged(a: Spec, b: Spec) {
    || a.storageUri != b.storageUri || a.image != b.image || a.runtime != b.runtime || a.framework != b.framework
    || a.cpu != b.cpu || a.memory != b.memory || a.gpus != b.gpus || a.gpuMemory != b.gpuMemory
    || a.gpuCores != b.gpuCores || a.chip != b.chip || a.clusterId != b.clusterId
    || a.runtimeVersion != b.runtimeVersion
  }

  // ---- the quota row ----

  predicate Fits(q: Quota, gpus: int, mem: int, jobs: int) {
    q.gpuUsed + gpus <= q.gpuQuota && q.memUsed + mem <= q.memQuota && q.jobUsed + jobs <= q.jobQuota
  }

  function Reserved(q: Quota, gpus: int, mem: int, jobs: int): Quota {
    q.(gpuUsed := q.gpuUsed + gpus, memUsed := q.memUsed + mem, jobUsed := q.jobUsed + jobs)
  }

  function Released(q: Quota, gpus: int, mem: int, jobs: int): Quota {
    q.(gpuUsed := Max(0, q.gpuUsed - gpus), memUsed := Max(0, q.memUsed - mem), jobUsed := Max(0, q.jobUsed - jobs))
  }

  /** What adjustReservationTx answers: the new table, or why it failed. */
  datatype Adjusted = Row(quotas: map<string, Quota>) | Exceeded | NotConfigured

  function Adjust(quotas: map<string, Quota>, tenant: string, oldGpus: int, oldMem: int, newGpus: int, newMem: int): Adjusted {
    if oldGpus == newGpus && oldMem == newMem then Row(quotas)
    else if tenant !in quotas then NotConfigured
    else
      var q := Released(quotas[tenant], oldGpus, oldMem, 0).(jobUsed := quotas[tenant].jobUsed);
      if q.gpuUsed + newGpus > q.gpuQuota || q.memUsed + newMem > q.memQuota then Exceeded
      else Row(quotas[tenant := Reserved(q, newGpus, newMem, 0)])
  }

  // ---- the service table ----

  /** The column lists that the three update statements select. */
  datatype Columns = SpecColumns | ApplyColumns | StatusColumns

  /** The row after an update takes the selected columns from `s`. The cluster is never among them. */
  function Written(row: Service, s: Service, columns: Columns): Service {
    match columns
    case SpecColumns => row.(spec := s.spec.(clusterId := row.spec.clusterId))
    case ApplyColumns => row.(spec := s.spec.(clusterId := row.spec.clusterId), kserveName := s.kserveName)
    case StatusColumns =>
      row.(status := s.status, url := s.url, kserveName := s.kserveName,
           readyReplicas := s.readyReplicas, failureReason := s.failureReason)
  }

  function UpdateWhere(rows: seq<Service>, s: Service, columns: Columns): seq<Service> {
    seq(|rows|, i requires 0 <= i < |rows| => if rows[i].id == s.id then Written(rows[i], s, columns) else rows[i])
  }

  function DeleteWhere(rows: seq<Service>, id: string): seq<Service> {
    if rows == [] then []
    else DeleteWhere(rows[..|rows| - 1], id) + (if rows[|rows| - 1].id == id then [] else [rows[|rows| - 1]])
  }

  predicate InScope(s: Service, scope: string) { scope == "" || s.tenant == scope }

  /** The row a lookup by id returns; an empty scope is a platform administrator's. */
  function FindById(rows: seq<Service>, scope: string, id: string): (r: Option<nat>)
    ensures r.Some? ==> r.value < |rows| && rows[r.value].id == id && InScope(rows[r.value], scope)
    ensures r.None? ==> forall i | 0 <= i < |rows| :: !(rows[i].id == id && InScope(rows[i], scope))
  {
    if rows == [] then None
    else
      var last := |rows| - 1;
      var r := FindById(rows[..last], scope, id);
      if r.Some? then r
      else if rows[last].id == id && InScope(rows[last], scope) then Some(last)
      else None
  }

  /** The row a lookup by name returns. Names need not be unique; `pick` is the database's choice. */
  function FindByName(rows: seq<Service>, tenant: string, name: string, pick: nat): (r: Option<nat>)
    ensures r.Some? ==> r.value < |rows| && rows[r.value].tenant == tenant && rows[r.value].spec.name == name
    ensures r.None? ==> forall i | 0 <= i < |rows| :: !(rows[i].tenant == tenant && rows[i].spec.name == name)
  {
    if pick < |rows| && rows[pick].tenant == tenant && rows[pick].spec.name == name then Some(pick)
    else if rows == [] then None
    else
      var last := |rows| - 1;
      var r := FindByName(rows[..last], tenant, name, pick);
      if r.Some? then r
      else if rows[last].tenant == tenant && rows[last].spec.name == name then Some(last)
      else None
  }

  predicate HasId(rows: seq<Service>, id: string) {
    exists i | 0 <= i < |rows| :: rows[i].id == id
  }

  // ---- the handlers ----

  /** `tenant` is None without a tenant context; the flags are the outcomes of the database calls;
      `id` is the identifier generated for a new row. */
  datatype Request =
    | Create(tenant: Option<string>, spec: Spec, id: string, insertOk: bool, releaseOk: bool)
    | Apply(tenant: Option<string>, spec: Spec, pick: nat, ok: bool, id: string, insertOk: bool, releaseOk: bool)
    | PatchService(scope: string, id: string, patch: Patch, ok: bool)
    | Delete(scope: string, id: string, ok: bool)
    | WriteStatus(service: Service)  // the reconciler, with a copy of the row that may be stale

  predicate HasTenant(tenant: Option<string>) { tenant.Some? && tenant.value != "" }

  /** createFromSpec: reserve, insert, and release again if the insert fails. */
  function CreateFromSpec(db: Db, tenant: string, spec: Spec, id: string, insertOk: bool, releaseOk: bool): (Db, Status) {
    var s := Service(id, tenant, spec, "Pending", "", "", 0, "");
    var gpus, mem := spec.gpus, MemGB(spec);
    if tenant !in db.quotas || !Fits(db.quotas[tenant], gpus, mem, 1) then (db, Conflict)
    else
      var taken := db.(quotas := db.quotas[tenant := Reserved(db.quotas[tenant], gpus, mem, 1)]);
      if insertOk && !HasId(db.services, id) then (taken.(services := db.services + [s]), Created)
      else if releaseOk then
        (taken.(quotas := taken.quotas[tenant := Released(taken.quotas[tenant], gpus, mem, 1)]), ServerError)
      else (taken.(leaks := db.leaks + [s]), ServerError)
  }

  function ApplyTo(db: Db, tenant: string, i: nat, spec: Spec, ok: bool): (Db, Status)
    requires i < |db.services|
  {
    var row := db.services[i];
    var s := row.(spec := spec, kserveName := if DeploymentChanged(row.spec, spec) then "" else row.kserveName);
    match Adjust(db.quotas, tenant, row.spec.gpus, MemGB(row.spec), spec.gpus, MemGB(spec))
    case Exceeded => (db, Conflict)
    case NotConfigured => (db, ServerError)
    case Row(quotas) =>
      if !ok then (db, ServerError)
      else (db.(quotas := quotas, services := UpdateWhere(db.services, s, ApplyColumns)), Ok)
  }

  function PatchStep(db: Db, scope: string, id: string, p: Patch, ok: bool): (Db, Status) {
    if RejectsImmutable(p) || !ValidPatch(p) then (db, BadRequest)
    else
      var i := FindById(db.services, scope, id);
      if i.None? then (db, NotFound)
      else
        var row := db.services[i.value];
        var spec := ApplyPatch(p, row.spec);
        var s := row.(spec := spec, kserveName := if DeploymentChanged(row.spec, spec) then "" else row.kserveName);
        if spec.maxReplicas < spec.minReplicas then (db, BadRequest)
        else if !ok then (db, ServerError)
        else (db.(services := UpdateWhere(db.services, s, SpecColumns)), Ok)
  }

  function DeleteStep(db: Db, scope: string, id: string, ok: bool): (Db, Status) {
    var i := FindById(db.services, scope, id);
    if i.None? then (db, NotFound)
    else if !ok then (db, ServerError)
    else
      var s := db.services[i.value];
      var tenant := if s.tenant == "" then "default" else s.tenant;
      var quotas := if tenant !in db.quotas then db.quotas
                    else db.quotas[tenant := Released(db.quotas[tenant], s.spec.gpus, MemGB(s.spec), 1)];
      (db.(quotas := quotas, services := DeleteWhere(db.services, id)), NoContent)
  }

  function Step(db: Db, r: Request): (Db, Status) {
    match r
    case Create(tenant, raw, id, insertOk, releaseOk) =>
      var spec := Normalize(raw);
      if !Valid(spec) || !HasTenant(tenant) then (db, BadRequest)
      else CreateFromSpec(db, tenant.value, spec, id, insertOk, releaseOk)
    case Apply(tenant, raw, pick, ok, id, insertOk, releaseOk) =>
      var spec := Normalize(raw);
      if !Valid(spec) || !HasTenant(tenant) then (db, BadRequest)
      else
        var i := FindByName(db.services, tenant.value, spec.name, pick);
        if i.None? then CreateFromSpec(db, tenant.value, spec, id, insertOk, releaseOk)
        else ApplyTo(db, tenant.value, i.value, spec, ok)
    case PatchService(scope, id, p, ok) => PatchStep(db, scope, id, p, ok)
    case Delete(scope, id, ok) => DeleteStep(db, scope, id, ok)
    case WriteStatus(s) => (db.(services := UpdateWhere(db.services, s, StatusColumns)), Ok)
  }

  function After(db: Db, run: seq<Request>): Db
    decreases |run|
  {
    if run == [] then db else After(Step(db, run[0]).0, run[1..])
  }
}
