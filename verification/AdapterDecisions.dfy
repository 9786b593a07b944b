/** What the adapter and mount handlers answer, which service a mount was made for, and whom a request
    concerns, in terms of the fields of the request and of the tables. */
module AdapterDecisions {
  import opened Base
  import opened AdapterMounts

  // ---- mounting ----

  /** The caller sees the adapter; the empty scope sees all tenants. */
  predicate SeesAdapter(s: Tables, scope: string, id: string) {
    id in s.adapters && (scope == "" || s.adapters[id].tenant == scope)
  }

  predicate SeesService(s: Tables, principal: string, id: string) {
    id in s.services && (principal == "" || s.services[id].tenant == principal)
  }

  /** A mount's served name is taken in the adapter's tenant. */
  predicate Taken(s: Tables, a: Adapter) {
    exists id | id in s.mounts ::
      s.mounts[id].tenant == TrimSpace(a.tenant) && s.mounts[id].servedName == a.baseModel + ":" + a.name
  }

  /** A row for this adapter would be complete and its served name would split back. */
  predicate Mountable(id: string, a: Adapter) {
    id != "" && TrimSpace(a.tenant) != "" && ':' !in a.baseModel
  }

  /** Every answer to a mount has its exact condition. In particular base models that differ are refused,
      and a mount is done exactly if adapter and service are there and visible, the service has the
      adapter's base model as its name, and the row is complete and its served name free. */
  lemma MountAnswersExactly(s: Tables, e: Event)
    requires Inv(s) && e.MountOn?
    ensures var asked := TrimSpace(e.serviceId) != "";
            var both := SeesAdapter(s, e.scope, e.adapterId) && SeesService(s, e.principal, e.serviceId);
            && (Verdict(s, e) == ServiceIdRequired <==> !asked)
            && (Verdict(s, e) == NotFound <==> asked && !SeesAdapter(s, e.scope, e.adapterId))
            && (Verdict(s, e) == ServiceNotFound <==> asked && SeesAdapter(s, e.scope, e.adapterId) && !both)
            && (Verdict(s, e) == IncompatibleBase <==>
                  asked && both && s.services[e.serviceId].name != s.adapters[e.adapterId].baseModel)
            && (Verdict(s, e) == Ok <==>
                  asked && both && s.services[e.serviceId].name == s.adapters[e.adapterId].baseModel
                  && Mountable(e.adapterId, s.adapters[e.adapterId]) && !Taken(s, s.adapters[e.adapterId]))
            && (Verdict(s, e) == MountConflict <==>
                  asked && both && s.services[e.serviceId].name == s.adapters[e.adapterId].baseModel
                  && Mountable(e.adapterId, s.adapters[e.adapterId]) && Taken(s, s.adapters[e.adapterId]))
  {
    if SeesAdapter(s, e.scope, e.adapterId) {
      var a := s.adapters[e.adapterId];
      FormIsExact(e.adapterId, a, e.serviceId);
      TakenIs(s, a);
    }
    hide NormalForm, FormFor, ValidMount, TrimSpace, Trimmed, Taken, ServedTaken, Join;
  }

  lemma TakenIs(s: Tables, a: Adapter)
    ensures Taken(s, a) <==> ServedTaken(s.mounts, TrimSpace(a.tenant), Join(a.baseModel, a.name))
  {
    assert Join(a.baseModel, a.name) == a.baseModel + ":" + a.name;
    hide TrimSpace, Join;
  }

  /** The request made the mount: in the tables it met, adapter and service were there and visible, the
      service's name was the mount's base model, and the row is the adapter's. */
  predicate Made(s: Tables, e: Event, id: string, m: Mount) {
    && e.MountOn? && e.id == id && SeesAdapter(s, e.scope, e.adapterId) && SeesService(s, e.principal, e.serviceId)
    && s.services[e.serviceId].name == m.baseModel
    && m == Mount(e.adapterId, TrimSpace(e.serviceId), m.baseModel + ":" + s.adapters[e.adapterId].name,
                  s.adapters[e.adapterId].baseModel, TrimSpace(s.adapters[e.adapterId].tenant))
  }

  lemma OkMade(s: Tables, e: Event)
    requires Inv(s) && e.MountOn? && Verdict(s, e).Ok?
    ensures e.id in Step(s, e).mounts && Made(s, e, e.id, Step(s, e).mounts[e.id])
    ensures Step(s, e) == s.(mounts := s.mounts[e.id := Step(s, e).mounts[e.id]])
  {
    MountAnswersExactly(s, e);
    OkMount(s, e);
    var a := s.adapters[e.adapterId];
    FormIsExact(e.adapterId, a, e.serviceId);
    assert Join(a.baseModel, a.name) == a.baseModel + ":" + a.name;
    hide Step, Verdict, NormalForm, FormFor, ValidMount, TrimSpace, Trimmed, Taken, ServedTaken, Join;
  }

  lemma OtherMountsStay(s: Tables, e: Event, id: string)
    requires id in Step(s, e).mounts && !(e.MountOn? && e.id == id && Verdict(s, e).Ok?)
    ensures id in s.mounts && s.mounts[id] == Step(s, e).mounts[id]
  {
    hide Verdict, NormalForm, NormalAdapter, FormFor;
  }

  lemma {:induction false} SplitRun(s: Tables, run: seq<Event>, n: nat)
    requires AdmissibleRun(s, run) && n <= |run|
    ensures AdmissibleRun(s, run[..n]) && AdmissibleRun(After(s, run[..n]), run[n..])
    ensures After(s, run) == After(After(s, run[..n]), run[n..])
    decreases n
  {
    if n == 0 {
      assert run[..0] == [] && run[0..] == run;
    } else {
      assert run[..n][1..] == run[1..][..n - 1] && run[1..][n - 1..] == run[n..];
      hide Step, Admissible;
      SplitRun(Step(s, run[0]), run[1..], n - 1);
    }
  }

  lemma LastStep(s: Tables, run: seq<Event>)
    requires AdmissibleRun(s, run) && run != []
    ensures var n := |run| - 1;
            AdmissibleRun(s, run[..n]) && Admissible(After(s, run[..n]), run[n])
            && After(s, run) == Step(After(s, run[..n]), run[n])
  {
    var n := |run| - 1;
    SplitRun(s, run, n);
    hide Step, Admissible;
    assert run[n..] == [run[n]] && [run[n]][1..] == [];
  }

  /** Every mount in the tables after a run was made by a request of the run, for a service that existed,
      was visible to its principal and had the mount's base model as its name. */
  lemma {:induction false} MountWasMadeForService(run: seq<Event>, id: string) returns (p: nat)
    requires AdmissibleRun(START, run) && id in After(START, run).mounts
    ensures p < |run| && Made(After(START, run[..p]), run[p], id, After(START, run).mounts[id])
    decreases |run|
  {
    assert run != [];
    var n := |run| - 1;
    var s, e := After(START, run[..n]), run[n];
    LastStep(START, run);
    RunKeepsInv(START, run[..n]);
    hide Step, Inv, AdmissibleRun, Admissible, After, Made, Verdict;
    if e.MountOn? && e.id == id && Verdict(s, e).Ok? {
      OkMade(s, e);
      p := n;
    } else {
      OtherMountsStay(s, e, id);
      p := MountWasMadeForService(run[..n], id);
      assert run[..n][..p] == run[..p];
    }
  }

  // ---- creating and deleting ----

  /** The letters of `s` are those of `t`, which is in lower case, but for their case. */
  predicate Folds(s: string, t: string) {
    |s| == |t| && forall i | 0 <= i < |s| :: s[i] == t[i] || ('A' <= s[i] <= 'Z' && s[i] - 'A' + 'a' == t[i])
  }

  /** An adapter that can be created: named, with a base model and a path, a rank from 1 to 256 and one of
      the two methods, or either of these left out. */
  predicate Creatable(a: Adapter) {
    && TrimSpace(a.name) != "" && TrimSpace(a.baseModel) != "" && TrimSpace(a.path) != ""
    && 0 <= a.rank <= 256
    && (TrimSpace(a.kind) == "" || Folds(TrimSpace(a.kind), "lora") || Folds(TrimSpace(a.kind), "qlora"))
  }

  predicate NoCapitals(s: string) {
    forall i | 0 <= i < |s| :: !('A' <= s[i] <= 'Z')
  }

  lemma LowersTo(s: string, t: string)
    requires NoCapitals(t)
    ensures ToLower(s) == t <==> Folds(s, t)
  {
    var r := ToLower(s);
    if Folds(s, t) {
      assert forall i | 0 <= i < |s| :: r[i] == t[i];
      assert r == t;
    } else if r == t {
      forall i | 0 <= i < |s| ensures s[i] == t[i] || ('A' <= s[i] <= 'Z' && s[i] - 'A' + 'a' == t[i]) {
        assert r[i] == Lower(s[i]);
      }
    }
  }

  lemma ValidExactly(a: Adapter)
    ensures ValidAdapter(NormalAdapter(a)) <==> Creatable(a)
  {
    var kind := TrimSpace(a.kind);
    LowersTo(kind, "lora");
    LowersTo(kind, "qlora");
    assert kind == "" <==> ToLower(kind) == "";
    hide TrimSpace, ToLower, Folds;
  }

  predicate NameUsed(s: Tables, tenant: string, name: string) {
    exists id | id in s.adapters :: s.adapters[id].tenant == tenant && s.adapters[id].name == TrimSpace(name)
  }

  /** Every answer to a create has its exact condition. */
  lemma CreateAnswersExactly(s: Tables, e: Event)
    requires e.Create?
    ensures var found := TrimSpace(e.given.sourceJob) == "" || e.jobKnown;
            && (Verdict(s, e) == MissingTenant <==> e.tenant == "")
            && (Verdict(s, e) == Invalid <==> e.tenant != "" && !Creatable(e.given))
            && (Verdict(s, e) == SourceJobNotFound <==> e.tenant != "" && Creatable(e.given) && !found)
            && (Verdict(s, e) == NameConflict <==>
                  e.tenant != "" && Creatable(e.given) && found && NameUsed(s, e.tenant, e.given.name))
            && (Verdict(s, e) == Ok <==>
                  e.tenant != "" && Creatable(e.given) && found && !NameUsed(s, e.tenant, e.given.name))
  {
    ValidExactly(e.given);
    NamedAs(e.given);
    NameUsedIs(s, e.tenant, e.given.name);
    hide NormalAdapter, ValidAdapter, Creatable, TrimSpace, NameUsed, NameTaken;
  }

  lemma NamedAs(a: Adapter)
    ensures NormalAdapter(a).name == TrimSpace(a.name) && NormalAdapter(a).sourceJob == TrimSpace(a.sourceJob)
  {
    hide TrimSpace, ToLower;
  }

  lemma NameUsedIs(s: Tables, tenant: string, name: string)
    ensures NameUsed(s, tenant, name) <==> NameTaken(s.adapters, tenant, TrimSpace(name))
  {
    hide TrimSpace;
  }

  /** A delete is refused exactly while a mount that the caller sees is of the adapter, and is done exactly
      if there is none and the caller sees the adapter. Then that adapter alone is gone. */
  lemma DeleteAnswersExactly(s: Tables, scope: string, id: string)
    ensures var mounted := exists m | m in s.mounts ::
                             s.mounts[m].adapterId == id && (scope == "" || s.mounts[m].tenant == scope);
            && (Verdict(s, Delete(scope, id)) == StillMounted <==> mounted)
            && (Verdict(s, Delete(scope, id)) == NotFound <==> !mounted && !SeesAdapter(s, scope, id))
            && (Verdict(s, Delete(scope, id)) == Ok <==> !mounted && SeesAdapter(s, scope, id))
            && Step(s, Delete(scope, id))
               == if !mounted && SeesAdapter(s, scope, id) then s.(adapters := s.adapters - {id}) else s
  {
    assert IsMounted(s.mounts, scope, id)
      <==> exists m | m in s.mounts :: s.mounts[m].adapterId == id && (scope == "" || s.mounts[m].tenant == scope) by {
      if IsMounted(s.mounts, scope, id) {
        var m :| m in s.mounts && InScope(scope, s.mounts[m].tenant) && s.mounts[m].adapterId == id;
        assert s.mounts[m].adapterId == id && (scope == "" || s.mounts[m].tenant == scope);
      }
      if m :| m in s.mounts && s.mounts[m].adapterId == id && (scope == "" || s.mounts[m].tenant == scope) {
        assert InScope(scope, s.mounts[m].tenant);
      }
    }
    hide IsMounted;
  }

  /** An unmount takes away exactly the mounts of that adapter on that service which the caller sees. */
  lemma UnmountRemovesExactly(s: Tables, scope: string, adapterId: string, serviceId: string)
    ensures var t := Step(s, Unmount(scope, adapterId, serviceId));
            && t == s.(mounts := t.mounts)
            && (forall id :: id in t.mounts <==>
                  id in s.mounts && !(s.mounts[id].adapterId == adapterId && s.mounts[id].serviceId == serviceId
                                      && (scope == "" || s.mounts[id].tenant == scope)))
            && (forall id | id in t.mounts :: t.mounts[id] == s.mounts[id])
  {
    var gone := Matching(s.mounts, scope, adapterId, serviceId);
    if gone == {} {
      forall id | id in s.mounts
        ensures !(s.mounts[id].adapterId == adapterId && s.mounts[id].serviceId == serviceId
                  && (scope == "" || s.mounts[id].tenant == scope))
      {
        assert id !in gone;
      }
    }
  }

  // ---- whom a request concerns ----

  /** The tenant that a request acts for; the empty one may act for all. */
  function ActsFor(e: Event): string {
    match e
    case Create(_, tenant, _, _) => tenant
    case MountOn(_, scope, _, _, _) => scope
    case Unmount(scope, _, _) => scope
    case Delete(scope, _) => scope
    case PutService(_, service) => service.tenant
    case DropService(_) => ""
  }

  /** The tenant's adapters and mounts are the same in both. */
  predicate SameFor(s: Tables, t: Tables, tenant: string) {
    && (forall id | id in s.adapters && s.adapters[id].tenant == tenant :: id in t.adapters && t.adapters[id] == s.adapters[id])
    && (forall id | id in t.adapters && t.adapters[id].tenant == tenant :: id in s.adapters && s.adapters[id] == t.adapters[id])
    && (forall id | id in s.mounts && s.mounts[id].tenant == tenant :: id in t.mounts && t.mounts[id] == s.mounts[id])
    && (forall id | id in t.mounts && t.mounts[id].tenant == tenant :: id in s.mounts && s.mounts[id] == t.mounts[id])
  }

  /** A request of one tenant changes no other tenant's adapters or mounts, with one exception: a mount
      goes to the caller's tenant without the white space at its ends. */
  lemma RequestIsOwn(s: Tables, e: Event, tenant: string)
    requires Inv(s) && Admissible(s, e) && ActsFor(e) != "" && ActsFor(e) != tenant
    ensures SameFor(s, Step(s, e), tenant)
            <==> !(e.MountOn? && Verdict(s, e).Ok? && TrimSpace(ActsFor(e)) == tenant)
  {
    hide SameFor, Inv;
    match e {
      case MountOn(_, _, _, _, _) => MountConcerns(s, e, tenant);
      case Create(_, _, _, _) => CreateIsOwn(s, e, tenant);
      case Unmount(_, _, _) => UnmountIsOwn(s, e, tenant);
      case Delete(_, _) => DeleteIsOwn(s, e, tenant);
      case _ => SameRows(s, Step(s, e), tenant);
    }
  }

  lemma SameRows(s: Tables, t: Tables, tenant: string)
    requires t.adapters == s.adapters && t.mounts == s.mounts
    ensures SameFor(s, t, tenant)
  {
  }

  lemma CreateIsOwn(s: Tables, e: Event, tenant: string)
    requires e.Create? && e.tenant != tenant && e.id !in s.adapters
    ensures SameFor(s, Step(s, e), tenant)
  {
    hide NormalAdapter, ValidAdapter, NameTaken, TrimSpace;
  }

  lemma UnmountIsOwn(s: Tables, e: Event, tenant: string)
    requires e.Unmount? && e.scope != "" && e.scope != tenant
    ensures SameFor(s, Step(s, e), tenant)
  {
    UnmountRemovesExactly(s, e.scope, e.adapterId, e.serviceId);
    hide Step;
  }

  lemma DeleteIsOwn(s: Tables, e: Event, tenant: string)
    requires e.Delete? && e.scope != "" && e.scope != tenant
    ensures SameFor(s, Step(s, e), tenant)
  {
    DeleteAnswersExactly(s, e.scope, e.adapterId);
    hide Step, Verdict;
  }

  lemma NewMountConcerns(s: Tables, id: string, m: Mount, tenant: string)
    requires id !in s.mounts
    ensures SameFor(s, s.(mounts := s.mounts[id := m]), tenant) <==> m.tenant != tenant
  {
    var t := s.(mounts := s.mounts[id := m]);
    assert id in t.mounts && t.mounts[id] == m;
  }

  lemma MountConcerns(s: Tables, e: Event, tenant: string)
    requires Inv(s) && Admissible(s, e) && e.MountOn? && ActsFor(e) != ""
    ensures SameFor(s, Step(s, e), tenant) <==> !(Verdict(s, e).Ok? && TrimSpace(ActsFor(e)) == tenant)
  {
    hide Verdict, TrimSpace, Inv, SameFor;
    if Verdict(s, e).Ok? {
      OkMade(s, e);
      hide Step;
      NewMountConcerns(s, e.id, Step(s, e).mounts[e.id], tenant);
    } else {
      SameRows(s, s, tenant);
    }
  }

  /** So no run of requests of other tenants touches a tenant's rows, as long as none of them is the same
      tenant but for white space. */
  lemma {:induction false} TenantsAreIsolated(s: Tables, run: seq<Event>, tenant: string)
    requires Inv(s) && AdmissibleRun(s, run)
    requires forall e | e in run :: ActsFor(e) !in {"", tenant} && TrimSpace(ActsFor(e)) != tenant
    ensures SameFor(s, After(s, run), tenant)
    decreases |run|
  {
    if run != [] {
      var e := run[0];
      assert e in run && forall x | x in run[1..] :: x in run;
      RequestIsOwn(s, e, tenant);
      StepKeepsInv(s, e);
      hide Step, Inv, ActsFor, TrimSpace, Admissible;
      TenantsAreIsolated(Step(s, e), run[1..], tenant);
    }
  }

  // ---- what is stored ----

  /** A stored adapter: named, with a base model, a path and a tenant, a rank from 1 to 256 and a method. */
  predicate Complete(a: Adapter) {
    a.name != "" && a.baseModel != "" && a.path != "" && a.tenant != "" && 1 <= a.rank <= 256 && (a.kind == "lora" || a.kind == "qlora")
  }

  predicate AllComplete(s: Tables) {
    forall id | id in s.adapters :: Complete(s.adapters[id])
  }

  lemma StepKeepsComplete(s: Tables, e: Event)
    requires AllComplete(s)
    ensures AllComplete(Step(s, e))
  {
    hide NormalAdapter, NameTaken, IsMounted, NormalForm, FormFor;
    if e.Create? {
      assert ValidAdapter(NormalAdapter(e.given)) && e.tenant != "" ==> Complete(NormalAdapter(e.given).(tenant := e.tenant));
    }
  }

  /** In every run every stored adapter is complete. */
  lemma {:induction false} StoredAdaptersAreComplete(s: Tables, run: seq<Event>)
    requires AllComplete(s)
    ensures AllComplete(After(s, run))
    decreases |run|
  {
    if run != [] {
      StepKeepsComplete(s, run[0]);
      hide Step, AllComplete;
      StoredAdaptersAreComplete(Step(s, run[0]), run[1..]);
    }
  }

  /** What a create stores: the fields as given but for white space at their ends, the method in lower
      case, and rank 8 and method "lora" where they were left out. */
  lemma StoresGiven(s: Tables, e: Event)
    requires e.Create? && Verdict(s, e).Ok?
    ensures e.id in Step(s, e).adapters
    ensures var a, g := Step(s, e).adapters[e.id], e.given;
            && Step(s, e) == s.(adapters := s.adapters[e.id := a])
            && a.name == TrimSpace(g.name) && a.baseModel == TrimSpace(g.baseModel) && a.path == TrimSpace(g.path)
            && a.sourceJob == TrimSpace(g.sourceJob) && a.tenant == e.tenant
            && a.rank == (if g.rank == 0 then 8 else g.rank)
            && (if TrimSpace(g.kind) == "" then a.kind == "lora" else Folds(TrimSpace(g.kind), a.kind))
  {
    KindStored(e.given);
    hide TrimSpace, ToLower, Folds, NameTaken, ValidAdapter;
  }

  lemma KindStored(g: Adapter)
    requires ValidAdapter(NormalAdapter(g))
    ensures var kind := NormalAdapter(g).kind;
            if TrimSpace(g.kind) == "" then kind == "lora" else Folds(TrimSpace(g.kind), kind)
  {
    LowersTo(TrimSpace(g.kind), "lora");
    LowersTo(TrimSpace(g.kind), "qlora");
    assert TrimSpace(g.kind) == "" <==> ToLower(TrimSpace(g.kind)) == "";
    hide TrimSpace, ToLower, Folds;
  }
}
