/** The storage transactions and the handlers of module Inference in the form the source gives them:
    rows are loaded, changed and saved one statement at a time. */
module InferenceApi {
  import opened Base
  import opened Inference

  datatype TxError = NoError | QuotaExceeded | QuotaNotConfigured | DatabaseError

  class Store {
    var services: seq<Service>
    var quotas: map<string, Quota>
    ghost var leaks: seq<Service>

    ghost function View(): Db
      reads this
    {
      Db(services, quotas, leaks)
    }

    constructor (quotas: map<string, Quota>)
      ensures View() == Db([], quotas, [])
    {
      services, this.quotas, leaks := [], quotas, [];
    }

    method CheckAndReserve(tenant: string, gpus: int, mem: int, jobs: int) returns (err: TxError)
      modifies this`quotas
      ensures err == (if tenant !in old(quotas) then QuotaNotConfigured
                      else if Fits(old(quotas)[tenant], gpus, mem, jobs) then NoError else QuotaExceeded)
      ensures quotas == if err == NoError then old(quotas)[tenant := Reserved(old(quotas)[tenant], gpus, mem, jobs)]
                        else old(quotas)
    {
      if tenant !in quotas {
        return QuotaNotConfigured;
      }
      var q := quotas[tenant];
      if q.gpuUsed + gpus > q.gpuQuota {
        return QuotaExceeded;
      }
      if q.memUsed + mem > q.memQuota {
        return QuotaExceeded;
      }
      if q.jobUsed + jobs > q.jobQuota {
        return QuotaExceeded;
      }
      q := q.(gpuUsed := q.gpuUsed + gpus);
      q := q.(memUsed := q.memUsed + mem);
      q := q.(jobUsed := q.jobUsed + jobs);
      quotas := quotas[tenant := q];
      return NoError;
    }

    method Release(tenant: string, gpus: int, mem: int, jobs: int, ok: bool) returns (err: TxError)
      modifies this`quotas
      ensures err == NoError <==> ok && tenant in old(quotas)
      ensures quotas == if err == NoError then old(quotas)[tenant := Released(old(quotas)[tenant], gpus, mem, jobs)]
                        else old(quotas)
    {
      if !ok || tenant !in quotas {
        return DatabaseError;
      }
      var q := quotas[tenant];
      q := q.(gpuUsed := Max(0, q.gpuUsed - gpus));
      q := q.(memUsed := Max(0, q.memUsed - mem));
      q := q.(jobUsed := Max(0, q.jobUsed - jobs));
      quotas := quotas[tenant := q];
      return NoError;
    }

    method AdjustReservation(tenant: string, oldGpus: int, oldMem: int, newGpus: int, newMem: int) returns (err: TxError)
      modifies this`quotas
      ensures match Adjust(old(quotas), tenant, oldGpus, oldMem, newGpus, newMem)
              case Row(adjusted) => err == NoError && quotas == adjusted
              case Exceeded => err == QuotaExceeded && quotas == old(quotas)
              case NotConfigured => err == QuotaNotConfigured && quotas == old(quotas)
    {
      if oldGpus == newGpus && oldMem == newMem {
        return NoError;
      }
      if tenant !in quotas {
        return QuotaNotConfigured;
      }
      var q := quotas[tenant];
      q := q.(gpuUsed := Max(0, q.gpuUsed - oldGpus));
      q := q.(memUsed := Max(0, q.memUsed - oldMem));
      if q.gpuUsed + newGpus > q.gpuQuota {
        return QuotaExceeded;
      }
      if q.memUsed + newMem > q.memQuota {
        return QuotaExceeded;
      }
      q := q.(gpuUsed := q.gpuUsed + newGpus);
      q := q.(memUsed := q.memUsed + newMem);
      quotas := quotas[tenant := q];
      return NoError;
    }

    /** The update statement of the three writers: the selected columns of the rows with this id. */
    method UpdateColumns(s: Service, columns: Columns)
      modifies this`services
      ensures services == UpdateWhere(old(services), s, columns)
    {
      for i := 0 to |services|
        invariant |services| == |old(services)|
        invariant forall j | 0 <= j < |services| ::
                    services[j] == if j < i then UpdateWhere(old(services), s, columns)[j] else old(services)[j]
      {
        if services[i].id == s.id {
          services := services[i := Written(services[i], s, columns)];
        }
      }
    }

    method DeleteRow(id: string)
      modifies this`services
      ensures services == DeleteWhere(old(services), id)
    {
      var kept: seq<Service> := [];
      for i := 0 to |services|
        invariant unchanged(this)
        invariant kept == DeleteWhere(services[..i], id)
      {
        assert services[..i + 1][..i] == services[..i];
        if services[i].id != id {
          kept := kept + [services[i]];
        }
      }
      assert services[..|services|] == services;
      services := kept;
    }

    method ApplySpec(tenant: string, s: Service, oldGpus: int, oldMem: int, newGpus: int, newMem: int, ok: bool)
      returns (err: TxError)
      modifies this`services, this`quotas
      ensures var adjusted := Adjust(old(quotas), tenant, oldGpus, oldMem, newGpus, newMem);
              if adjusted.Row? && ok
              then err == NoError && quotas == adjusted.quotas && services == UpdateWhere(old(services), s, ApplyColumns)
              else err != NoError && quotas == old(quotas) && services == old(services)
                   && (err == QuotaExceeded <==> adjusted.Exceeded?)
    {
      var before := quotas;
      err := AdjustReservation(tenant, oldGpus, oldMem, newGpus, newMem);
      if err == NoError {
        if !ok {
          quotas := before;  // the transaction rolls back
          return DatabaseError;
        }
        UpdateColumns(s, ApplyColumns);
      }
    }

    method DeleteAndReleaseQuota(id: string, tenant: string, gpus: int, mem: int)
      modifies this`services, this`quotas
      ensures services == DeleteWhere(old(services), id)
      ensures quotas == if tenant !in old(quotas) then old(quotas)
                        else old(quotas)[tenant := Released(old(quotas)[tenant], gpus, mem, 1)]
    {
      if tenant in quotas {
        var q := quotas[tenant];
        q := q.(gpuUsed := Max(0, q.gpuUsed - gpus));
        q := q.(memUsed := Max(0, q.memUsed - mem));
        q := q.(jobUsed := Max(0, q.jobUsed - 1));
        quotas := quotas[tenant := q];
      }
      DeleteRow(id);
    }

    // ---- the handlers ----

    method CreateService(tenant: string, spec: Spec, id: string, insertOk: bool, releaseOk: bool) returns (code: Status)
      modifies this
      ensures (View(), code) == CreateFromSpec(old(View()), tenant, spec, id, insertOk, releaseOk)
    {
      var s := Service(id, tenant, spec, "Pending", "", "", 0, "");
      var mem := MemGB(s.spec);
      var err := CheckAndReserve(tenant, spec.gpus, mem, 1);
      if err != NoError {
        return Conflict;
      }
      if insertOk && !HasId(services, id) {
        services := services + [s];
        return Created;
      }
      err := Release(tenant, spec.gpus, mem, 1, releaseOk);
      if err != NoError {
        leaks := leaks + [s];
      }
      return ServerError;
    }

    method Apply(tenant: Option<string>, raw: Spec, pick: nat, ok: bool, id: string, insertOk: bool, releaseOk: bool)
      returns (code: Status)
      modifies this
      ensures (View(), code) == Step(old(View()), Request.Apply(tenant, raw, pick, ok, id, insertOk, releaseOk))
    {
      var spec := Normalize(raw);
      if !Valid(spec) || !HasTenant(tenant) {
        return BadRequest;
      }
      var found := FindByName(services, tenant.value, spec.name, pick);
      if found.None? {
        code := CreateService(tenant.value, spec, id, insertOk, releaseOk);
        return;
      }
      hide Adjust, UpdateWhere, DeploymentChanged, MemGB;
      var existing := services[found.value];
      var previous := existing;
      existing := existing.(spec := spec);
      if DeploymentChanged(previous.spec, existing.spec) {
        existing := existing.(kserveName := "");
      }
      var err := ApplySpec(tenant.value, existing, previous.spec.gpus, MemGB(previous.spec),
                           existing.spec.gpus, MemGB(existing.spec), ok);
      if err == QuotaExceeded {
        return Conflict;
      }
      return if err == NoError then Ok else ServerError;
    }

    method PatchOne(scope: string, id: string, p: Patch, ok: bool) returns (code: Status)
      modifies this
      ensures (View(), code) == PatchStep(old(View()), scope, id, p, ok)
    {
      if RejectsImmutable(p) || !ValidPatch(p) {
        return BadRequest;
      }
      var found := FindById(services, scope, id);
      if found.None? {
        return NotFound;
      }
      var s := services[found.value];
      var previous := s;
      s := s.(spec := ApplyPatch(p, s.spec));
      if DeploymentChanged(previous.spec, s.spec) {
        s := s.(kserveName := "");
      }
      if s.spec.maxReplicas < s.spec.minReplicas {
        return BadRequest;
      }
      if !ok {
        return ServerError;
      }
      UpdateColumns(s, SpecColumns);
      return Ok;
    }

    method Delete(scope: string, id: string, ok: bool) returns (code: Status)
      modifies this
      ensures (View(), code) == DeleteStep(old(View()), scope, id, ok)
    {
      var found := FindById(services, scope, id);
      if found.None? {
        return NotFound;
      }
      var s := services[found.value];
      var tenant := if s.tenant == "" then "default" else s.tenant;
      if !ok {
        return ServerError;
      }
      DeleteAndReleaseQuota(id, tenant, s.spec.gpus, MemGB(s.spec));
      return NoContent;
    }
  }
}
