/** What a service is charged, on the fields of its specification alone, and what the handlers decide
    about a request, on the fields of the tables alone. */
module QuotaAmounts {
  import opened Base
  import opened Inference
  import opened QuotaConservation

  // ---- the charge of one service ----

  /** `gb` is the charge for so many GPUs of `mib` MiB each: whole GB of their memory, at least one; 40 GB
      a GPU if their memory is not given; one GB without GPUs. */
  predicate ChargedFor(gb: int, gpus: int, mib: int) {
    if mib > 0 then gb >= 1 && mib * gpus < 1024 * (gb + 1) && (gb == 1 || 1024 * gb <= mib * gpus)
    else gb == if gpus > 0 then 40 * gpus else 1
  }

  lemma ChargeIs(s: Spec)
    ensures forall gb :: ChargedFor(gb, s.gpus, s.gpuMemory) <==> gb == MemGB(s)
  {
    if s.gpuMemory > 0 {
      var x := s.gpuMemory * s.gpus;
      forall gb
        ensures (gb >= 1 && x < 1024 * (gb + 1) && (gb == 1 || 1024 * gb <= x)) <==> gb == Max(1, x / 1024)
      {
        FloorLe(gb, x, 1024);
        FloorLe(gb + 1, x, 1024);
        FloorLe(1, x, 1024);
      }
    }
  }

  // ---- what a tenant is charged over a run ----

  /** The charges of the tenant's rows, one for each. */
  ghost predicate ChargesOf(charges: seq<int>, rows: seq<Service>, tenant: string) {
    |charges| == |rows|
    && forall i | 0 <= i < |rows| ::
         if rows[i].tenant == tenant then ChargedFor(charges[i], rows[i].spec.gpus, rows[i].spec.gpuMemory)
         else charges[i] == 0
  }

  function Sum(xs: seq<int>): int {
    if xs == [] then 0 else Sum(xs[..|xs| - 1]) + xs[|xs| - 1]
  }

  lemma {:induction false} ChargesAddUp(rows: seq<Service>, tenant: string, charges: seq<int>)
    requires ChargesOf(charges, rows, tenant)
    ensures Sum(charges) == Total(rows, tenant, Mem)
    decreases |rows|
  {
    if rows != [] {
      var n := |rows| - 1;
      ChargesAddUp(rows[..n], tenant, charges[..n]);
      ChargeIs(rows[n].spec);
    }
  }

  /** In any run a tenant's used memory is the sum of such charges, one for each live service and each
      lost reservation of the tenant. */
  lemma UsedMemoryIsCharged(quotas: map<string, Quota>, run: seq<Request>, t: string, live: seq<int>, lost: seq<int>)
    requires Unused(quotas) && t in After(Start(quotas), run).quotas
    requires ChargesOf(live, After(Start(quotas), run).services, t)
    requires ChargesOf(lost, After(Start(quotas), run).leaks, t)
    ensures After(Start(quotas), run).quotas[t].memUsed == Sum(live) + Sum(lost)
  {
    Conservation(quotas, run, t);
    hide After, ChargesOf, Sum, Total;
    ChargesAddUp(After(Start(quotas), run).services, t, live);
    ChargesAddUp(After(Start(quotas), run).leaks, t, lost);
  }

  /** Such charges exist for any rows. */
  lemma {:induction false} ChargesExist(rows: seq<Service>, tenant: string) returns (charges: seq<int>)
    ensures ChargesOf(charges, rows, tenant)
    decreases |rows|
  {
    if rows == [] {
      charges := [];
    } else {
      var n := |rows| - 1;
      var init := ChargesExist(rows[..n], tenant);
      ChargeIs(rows[n].spec);
      charges := init + [if rows[n].tenant == tenant then MemGB(rows[n].spec) else 0];
      assert forall i | 0 <= i < n :: rows[i] == rows[..n][i] && charges[i] == init[i];
    }
  }

  /** The GPU memory of the tenant's live services, in MiB, as their specifications give it. */
  function LiveMib(rows: seq<Service>, t: string): int {
    if rows == [] then 0
    else
      var last := rows[|rows| - 1];
      LiveMib(rows[..|rows| - 1], t)
      + (if last.tenant == t && last.spec.gpuMemory > 0 then last.spec.gpuMemory * last.spec.gpus else 0)
  }

  function CountOf(rows: seq<Service>, t: string): nat {
    if rows == [] then 0
    else CountOf(rows[..|rows| - 1], t) + (if rows[|rows| - 1].tenant == t then 1 else 0)
  }

  lemma {:induction false} MibCharged(rows: seq<Service>, t: string)
    ensures LiveMib(rows, t) <= 1024 * Total(rows, t, Mem) + 1023 * CountOf(rows, t)
    decreases |rows|
  {
    if rows != [] {
      var n := |rows| - 1;
      MibCharged(rows[..n], t);
      OneCharged(rows[n].spec);
      hide MemGB;
    }
  }

  lemma OneCharged(s: Spec)
    ensures (if s.gpuMemory > 0 then s.gpuMemory * s.gpus else 0) <= 1024 * MemGB(s) + 1023
  {
    ChargeIs(s);
    assert ChargedFor(MemGB(s), s.gpus, s.gpuMemory);
    hide MemGB;
  }

  /** So the GPU memory that a tenant's live services have never exceeds its memory limit by as much as
      one GB for each of them. */
  lemma LiveMemoryWithinQuota(quotas: map<string, Quota>, run: seq<Request>, t: string)
    requires Unused(quotas) && t in After(Start(quotas), run).quotas
    ensures var db := After(Start(quotas), run);
            LiveMib(db.services, t) <= 1024 * db.quotas[t].memQuota + 1023 * CountOf(db.services, t)
  {
    var db := After(Start(quotas), run);
    Conservation(quotas, run, t);
    RunKeepsInv(Start(quotas), run);
    hide After, Total, LiveMib, CountOf;
    MibCharged(db.services, t);
    AllCovered(db, t);
  }
}
