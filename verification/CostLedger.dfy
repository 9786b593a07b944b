/** Token and cost accounting: `CheckAndConsume` and `SetQuota` of backend/internal/storage/llm.go and
    the exactly-once GPU billing of backend/internal/storage/cost.go. Costs are reals. */
module CostLedger {
  import opened Base

  datatype TokenQuota = TokenQuota(limitTokens: int, usedTokens: int, limitCost: real, usedCost: real)

  datatype Bill = Bill(job: string, tenant: string, cost: real)

  /** The quota rows by tenant and the GPU usage records by job, whose column is unique. */
  datatype Ledger = Ledger(quotas: map<string, TokenQuota>, records: map<string, Bill>)

  /** `committed` is false when the transaction fails for good; it then leaves no trace. */
  datatype Event =
    | Consume(tenant: string, tokens: int, cost: real, committed: bool)
    | RecordGpu(bill: Bill, committed: bool)
    | SetQuota(tenant: string, row: TokenQuota)

  predicate WithinLimits(q: TokenQuota, tokens: int, cost: real) {
    && !(q.limitTokens > 0 && q.usedTokens + tokens > q.limitTokens)
    && !(q.limitCost > 0.0 && q.usedCost + cost > q.limitCost)
  }

  function Charge(q: TokenQuota, tokens: int, cost: real): TokenQuota {
    q.(usedTokens := q.usedTokens + tokens, usedCost := q.usedCost + cost)
  }

  /** The rows after a charge; a tenant without a row is not metered. */
  function Charged(quotas: map<string, TokenQuota>, tenant: string, tokens: int, cost: real): map<string, TokenQuota> {
    if tenant in quotas then quotas[tenant := Charge(quotas[tenant], tokens, cost)] else quotas
  }

  function Step(l: Ledger, e: Event): Ledger {
    match e
    case Consume(t, tokens, cost, committed) =>
      if !committed || (t in l.quotas && !WithinLimits(l.quotas[t], tokens, cost)) then l
      else l.(quotas := Charged(l.quotas, t, tokens, cost))
    case RecordGpu(b, committed) =>
      if !committed || b.job in l.records then l
      else Ledger(Charged(l.quotas, b.tenant, 0, b.cost), l.records[b.job := b])
    case SetQuota(t, row) =>
      l.(quotas := l.quotas[t := if t in l.quotas
                                 then l.quotas[t].(limitTokens := row.limitTokens, limitCost := row.limitCost)
                                 else row])
  }

  /** Whether a consumption is charged. */
  predicate Succeeds(l: Ledger, e: Event) {
    e.Consume? && e.committed && e.tenant in l.quotas && WithinLimits(l.quotas[e.tenant], e.tokens, e.cost)
  }

  datatype Answer = Nil | Exceeded | Failed

  class CostRepo {
    var quotas: map<string, TokenQuota>
    var records: map<string, Bill>

    function View(): Ledger
      reads this
    {
      Ledger(quotas, records)
    }

    constructor ()
      ensures View() == Ledger(map[], map[])
    {
      quotas, records := map[], map[];
    }

    method CheckAndConsume(tenant: string, tokens: int, cost: real, committed: bool) returns (err: Answer)
      modifies this`quotas
      ensures View() == Step(old(View()), Consume(tenant, tokens, cost, committed))
      ensures err == Exceeded ==> quotas == old(quotas)
      ensures err == Nil && tenant in old(quotas) <==> Succeeds(old(View()), Consume(tenant, tokens, cost, committed))
    {
      if !committed {
        return Failed;
      }
      if tenant !in quotas {
        return Nil;
      }
      var q := quotas[tenant];
      if q.limitTokens > 0 && q.usedTokens + tokens > q.limitTokens {
        return Exceeded;
      }
      if q.limitCost > 0.0 && q.usedCost + cost > q.limitCost {
        return Exceeded;
      }
      q := q.(usedTokens := q.usedTokens + tokens);
      q := q.(usedCost := q.usedCost + cost);
      quotas := quotas[tenant := q];
      return Nil;
    }

    method ConsumeCost(tenant: string, tokens: int, cost: real)
      modifies this`quotas
      ensures quotas == Charged(old(quotas), tenant, tokens, cost)
    {
      if tenant !in quotas {
        return;
      }
      var q := quotas[tenant];
      q := q.(usedTokens := q.usedTokens + tokens);
      q := q.(usedCost := q.usedCost + cost);
      quotas := quotas[tenant := q];
    }

    /** A conditional insert first; only a new record is charged. */
    method RecordGpuCost(b: Bill, committed: bool) returns (inserted: bool)
      modifies this
      ensures View() == Step(old(View()), RecordGpu(b, committed))
      ensures inserted <==> committed && b.job !in old(records)
    {
      if !committed || b.job in records {
        return false;
      }
      records := records[b.job := b];
      ConsumeCost(b.tenant, 0, b.cost);
      return true;
    }

    method SetQuotaRow(tenant: string, row: TokenQuota)
      modifies this`quotas
      ensures View() == Step(old(View()), SetQuota(tenant, row))
    {
      if tenant in quotas {
        quotas := quotas[tenant := quotas[tenant].(limitTokens := row.limitTokens, limitCost := row.limitCost)];
      } else {
        quotas := quotas[tenant := row];
      }
    }
  }

  // ---- runs ----

  function After(l: Ledger, run: seq<Event>): Ledger
    decreases |run|
  {
    if run == [] then l else After(Step(l, run[0]), run[1..])
  }

  /** The tokens and the costs of a tenant's successful consumptions in a run. */
  function TokensConsumed(l: Ledger, run: seq<Event>, t: string): int
    decreases |run|
  {
    if run == [] then 0
    else (if Succeeds(l, run[0]) && run[0].tenant == t then run[0].tokens else 0)
         + TokensConsumed(Step(l, run[0]), run[1..], t)
  }

  function CostConsumed(l: Ledger, run: seq<Event>, t: string): real
    decreases |run|
  {
    if run == [] then 0.0
    else (if Succeeds(l, run[0]) && run[0].tenant == t then run[0].cost else 0.0)
         + CostConsumed(Step(l, run[0]), run[1..], t)
  }

  /** The bills of a run that count: the first committed one of each job not already in `seen`. This
      looks only at the run, not at the ledger. */
  function FirstBills(run: seq<Event>, seen: set<string>): seq<Bill>
    decreases |run|
  {
    if run == [] then []
    else if run[0].RecordGpu? && run[0].committed && run[0].bill.job !in seen
    then [run[0].bill] + FirstBills(run[1..], seen + {run[0].bill.job})
    else FirstBills(run[1..], seen)
  }

  function CostOf(bills: seq<Bill>, t: string): real {
    if bills == [] then 0.0 else (if bills[0].tenant == t then bills[0].cost else 0.0) + CostOf(bills[1..], t)
  }

  predicate NoneOf(bills: seq<Bill>, seen: set<string>) {
    forall b | b in bills :: b.job !in seen
  }

  predicate DistinctJobs(bills: seq<Bill>) {
    forall i, j | 0 <= i < j < |bills| :: bills[i].job != bills[j].job
  }

  /** Those bills are of distinct jobs, none of them seen before. */
  lemma {:induction false} FirstBillsAreDistinct(run: seq<Event>, seen: set<string>)
    ensures NoneOf(FirstBills(run, seen), seen) && DistinctJobs(FirstBills(run, seen))
    decreases |run|
  {
    if run != [] {
      var e := run[0];
      if e.RecordGpu? && e.committed && e.bill.job !in seen {
        var rest := FirstBills(run[1..], seen + {e.bill.job});
        FirstBillsAreDistinct(run[1..], seen + {e.bill.job});
        DistinctCons(e.bill, rest, seen);
      } else {
        FirstBillsAreDistinct(run[1..], seen);
      }
    }
  }

  lemma DistinctCons(b: Bill, rest: seq<Bill>, seen: set<string>)
    requires b.job !in seen && NoneOf(rest, seen + {b.job}) && DistinctJobs(rest)
    ensures NoneOf([b] + rest, seen) && DistinctJobs([b] + rest)
  {
    var all := [b] + rest;
    forall i, j | 0 <= i < j < |all| ensures all[i].job != all[j].job {
      assert all[j] == rest[j - 1] && rest[j - 1] in rest;
    }
  }

  /** Every job whose bill commits in the run is among them, unless it was seen before. */
  lemma {:induction false} FirstBillsCover(run: seq<Event>, seen: set<string>, k: nat)
    requires k < |run| && run[k].RecordGpu? && run[k].committed && run[k].bill.job !in seen
    ensures exists b :: b in FirstBills(run, seen) && b.job == run[k].bill.job
    decreases |run|
  {
    var e := run[0];
    if e.RecordGpu? && e.committed && e.bill.job !in seen {
      if e.bill.job == run[k].bill.job {
        assert FirstBills(run, seen)[0] == e.bill;
      } else {
        FirstBillsCover(run[1..], seen + {e.bill.job}, k - 1);
      }
    } else {
      FirstBillsCover(run[1..], seen, k - 1);
    }
  }

  /** Starting from an existing row, in any run the tenant's used cost is its start value plus the
      costs of its successful consumptions plus the GPU costs of distinct jobs, however often each
      job's bill is replayed; used tokens grow by the consumed tokens alone. Changing the limits
      changes neither. */
  lemma {:induction false} LedgerBalances(l: Ledger, run: seq<Event>, t: string)
    requires t in l.quotas
    ensures var end := After(l, run);
            && t in end.quotas
            && end.quotas[t].usedCost == l.quotas[t].usedCost + CostConsumed(l, run, t)
                                         + CostOf(FirstBills(run, l.records.Keys), t)
            && end.quotas[t].usedTokens == l.quotas[t].usedTokens + TokensConsumed(l, run, t)
    decreases |run|
  {
    if run != [] {
      var e := run[0];
      var next := Step(l, e);
      LedgerBalances(next, run[1..], t);
      if e.RecordGpu? && e.committed && e.bill.job !in l.records {
        assert next.records.Keys == l.records.Keys + {e.bill.job};
        assert FirstBills(run, l.records.Keys)[1..] == FirstBills(run[1..], next.records.Keys);
      }
    }
  }

  /** The records of a run are those it started with and the first bills. */
  lemma {:induction false} RecordsAreFirstBills(l: Ledger, run: seq<Event>)
    ensures var bs := FirstBills(run, l.records.Keys);
            && After(l, run).records.Keys == l.records.Keys + (set b | b in bs :: b.job)
            && (forall j | j in l.records :: After(l, run).records[j] == l.records[j])
            && (forall b | b in bs :: After(l, run).records[b.job] == b)
    decreases |run|
  {
    if run != [] {
      var e := run[0];
      var next := Step(l, e);
      RecordsAreFirstBills(next, run[1..]);
      if e.RecordGpu? && e.committed && e.bill.job !in l.records {
        assert next.records.Keys == l.records.Keys + {e.bill.job};
        var rest := FirstBills(run[1..], next.records.Keys);
        assert FirstBills(run, l.records.Keys) == [e.bill] + rest;
      }
    }
  }

  /** The tenant's limit is never set to a positive value below what is used already. */
  predicate NeverUndercut(l: Ledger, run: seq<Event>, t: string)
    decreases |run|
  {
    run == [] || (
      && (run[0].SetQuota? && run[0].tenant == t && t in l.quotas && run[0].row.limitTokens > 0
          ==> l.quotas[t].usedTokens <= run[0].row.limitTokens)
      && NeverUndercut(Step(l, run[0]), run[1..], t))
  }

  predicate TokensBounded(q: TokenQuota) {
    q.limitTokens > 0 ==> q.usedTokens <= q.limitTokens
  }

  /** Used tokens never exceed a positive limit, with GPU billing interleaved, in any run that starts
      so and whose limit changes never undercut what is used. */
  lemma {:induction false} TokensStayBounded(l: Ledger, run: seq<Event>, t: string)
    requires t in l.quotas && TokensBounded(l.quotas[t]) && NeverUndercut(l, run, t)
    ensures t in After(l, run).quotas && TokensBounded(After(l, run).quotas[t])
    decreases |run|
  {
    if run != [] {
      TokensStayBounded(Step(l, run[0]), run[1..], t);
    }
  }

  /** One such change decides: the bound holds after it exactly when it does not undercut. */
  lemma UndercutBreaksBound(l: Ledger, t: string, row: TokenQuota)
    requires t in l.quotas && row.limitTokens > 0
    ensures TokensBounded(Step(l, SetQuota(t, row)).quotas[t]) <==> NeverUndercut(l, [SetQuota(t, row)], t)
  {
    assert [SetQuota(t, row)][1..] == [];
  }

  // ---- the limits, on the fields of the row ----

  /** A consumption that would exceed a positive limit of the row. */
  predicate WouldExceed(q: TokenQuota, tokens: int, cost: real) {
    || (q.limitTokens > 0 && q.usedTokens + tokens > q.limitTokens)
    || (q.limitCost > 0.0 && q.usedCost + cost > q.limitCost)
  }

  /** A committed consumption on an existing row is charged, both amounts to that row alone, exactly if it
      would exceed neither positive limit; otherwise, and on no row, nothing changes. */
  lemma ConsumptionChargedExactly(l: Ledger, t: string, tokens: int, cost: real, committed: bool)
    ensures var next := Step(l, Consume(t, tokens, cost, committed));
            && next.records == l.records
            && (if committed && t in l.quotas && !WouldExceed(l.quotas[t], tokens, cost)
                then next.quotas == l.quotas[t := l.quotas[t].(usedTokens := l.quotas[t].usedTokens + tokens,
                                                               usedCost := l.quotas[t].usedCost + cost)]
                else next.quotas == l.quotas)
    ensures Succeeds(l, Consume(t, tokens, cost, committed))
            <==> committed && t in l.quotas && !WouldExceed(l.quotas[t], tokens, cost)
  {
  }

  /** Costs are not negative, and the tenant's cost limit is never set to a positive value below what is
      used already. */
  predicate CostNeverUndercut(l: Ledger, run: seq<Event>, t: string)
    decreases |run|
  {
    run == [] || (
      && (run[0].Consume? ==> run[0].cost >= 0.0) && (run[0].RecordGpu? ==> run[0].bill.cost >= 0.0)
      && (run[0].SetQuota? && run[0].tenant == t && t in l.quotas && run[0].row.limitCost > 0.0
          ==> l.quotas[t].usedCost <= run[0].row.limitCost)
      && CostNeverUndercut(Step(l, run[0]), run[1..], t))
  }

  function MaxReal(a: real, b: real): real { if a >= b then a else b }

  /** Within the limit, if there is one, or within `start`, but for `billed` that was not checked. */
  predicate CostBounded(q: TokenQuota, start: real, billed: real) {
    q.limitCost > 0.0 ==> q.usedCost <= MaxReal(q.limitCost, start) + billed
  }

  lemma StepKeepsCostBounded(l: Ledger, e: Event, t: string, start: real, billed: real)
    requires t in l.quotas && CostNeverUndercut(l, [e], t) && billed >= 0.0 && CostBounded(l.quotas[t], start, billed)
    ensures var more := if e.RecordGpu? && e.committed && e.bill.job !in l.records && e.bill.tenant == t then e.bill.cost else 0.0;
            more >= 0.0 && t in Step(l, e).quotas && CostBounded(Step(l, e).quotas[t], start, billed + more)
  {
  }

  lemma {:induction false} CostBoundedFrom(l: Ledger, run: seq<Event>, t: string, start: real, billed: real)
    requires t in l.quotas && CostNeverUndercut(l, run, t) && billed >= 0.0 && CostBounded(l.quotas[t], start, billed)
    ensures t in After(l, run).quotas
    ensures CostBounded(After(l, run).quotas[t], start, billed + CostOf(FirstBills(run, l.records.Keys), t))
    decreases |run|
  {
    if run != [] {
      var e := run[0];
      var next := Step(l, e);
      assert CostNeverUndercut(l, [e], t) by {
        assert [e][1..] == [];
      }
      StepKeepsCostBounded(l, e, t, start, billed);
      var first := e.RecordGpu? && e.committed && e.bill.job !in l.records;
      assert next.records.Keys == l.records.Keys + (if first then {e.bill.job} else {});
      if first {
        BillsCons(e.bill, FirstBills(run[1..], next.records.Keys), t);
      }
      hide Step, CostBounded, CostOf;
      CostBoundedFrom(next, run[1..], t, start, billed + (if first && e.bill.tenant == t then e.bill.cost else 0.0));
    }
  }

  lemma BillsCons(b: Bill, rest: seq<Bill>, t: string)
    ensures CostOf([b] + rest, t) == (if b.tenant == t then b.cost else 0.0) + CostOf(rest, t)
  {
    assert ([b] + rest)[1..] == rest;
  }

  /** In any run of costs that are not negative whose limit changes never undercut, the used cost under a
      positive limit is at most the larger of that limit and the start, plus the tenant's GPU bills of
      the run, which are charged unchecked: consumptions never take it over the limit. */
  lemma CostStaysBounded(l: Ledger, run: seq<Event>, t: string)
    requires t in l.quotas && CostNeverUndercut(l, run, t)
    ensures t in After(l, run).quotas
    ensures var q := After(l, run).quotas[t];
            q.limitCost > 0.0 ==>
              q.usedCost <= MaxReal(q.limitCost, l.quotas[t].usedCost) + CostOf(FirstBills(run, l.records.Keys), t)
  {
    hide After, CostNeverUndercut, FirstBills, CostOf;
    CostBoundedFrom(l, run, t, l.quotas[t].usedCost, 0.0);
  }

  /** Setting a quota gives an existing row both new limits and leaves its usage alone; a tenant without a
      row gets the one given. No other row and no record changes. */
  lemma LimitsSetExactly(l: Ledger, t: string, row: TokenQuota)
    ensures var next := Step(l, SetQuota(t, row));
            && next.records == l.records && next.quotas == l.quotas[t := next.quotas[t]]
            && next.quotas[t].limitTokens == row.limitTokens && next.quotas[t].limitCost == row.limitCost
            && (t in l.quotas ==> next.quotas[t].usedTokens == l.quotas[t].usedTokens
                                  && next.quotas[t].usedCost == l.quotas[t].usedCost)
            && (t !in l.quotas ==> next.quotas[t] == row)
  {
  }
}
