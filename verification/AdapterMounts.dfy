/** Fine-tuned adapters and their mounts on inference services: the records of
    backend/internal/ports/adapter_mount.go and ports/finetune.go, the two tables of
    storage/adapter_mount.go and storage/finetune.go, and the handlers of api/finetune.go. A transaction
    that the database refuses leaves no trace, so it is no event of a run. */
module AdapterMounts {
  import opened Base

  datatype Adapter = Adapter(name: string, baseModel: string, path: string, rank: int, kind: string,
                             sourceJob: string, tenant: string)

  datatype Mount = Mount(adapterId: string, serviceId: string, servedName: string, baseModel: string, tenant: string)

  datatype Service = Service(tenant: string, name: string)

  datatype Tables = Tables(adapters: map<string, Adapter>, mounts: map<string, Mount>, services: map<string, Service>)

  datatype Answer = Ok | MissingTenant | Invalid | SourceJobNotFound | NameConflict | ServiceIdRequired | NotFound
                  | ServiceNotFound | IncompatibleBase | MountConflict | NotMounted | StillMounted

  const SEPARATOR := ':'
  const MAX_RANK := 256

  // ---- served names ----

  function Join(base: string, adapter: string): string {
    base + [SEPARATOR] + adapter
  }

  function IndexOf(s: string, c: char): (i: int)
    ensures i < 0 ==> c !in s
    ensures 0 <= i ==> i < |s| && s[i] == c && c !in s[..i]
  {
    if s == [] then -1
    else if s[0] == c then 0
    else var rest := IndexOf(s[1..], c);
         assert s == [s[0]] + s[1..];
         if rest < 0 then -1
         else assert s[..1 + rest] == [s[0]] + s[1..][..rest];
              1 + rest
  }

  function Split(served: string): (string, string) {
    var s := TrimSpace(served);
    var i := IndexOf(s, SEPARATOR);
    if i < 0 then (s, "") else (s[..i], s[i + 1..])
  }

  /** A name worth storing: not empty, and no white space at either end. */
  predicate Clean(s: string) {
    s != "" && Trimmed(s)
  }

  lemma JoinIsClean(base: string, adapter: string)
    requires Clean(base) && Clean(adapter)
    ensures Clean(Join(base, adapter)) && TrimSpace(Join(base, adapter)) == Join(base, adapter)
  {
    var j := Join(base, adapter);
    assert j[0] == base[0] && j[|j| - 1] == adapter[|adapter| - 1];
    TrimSpaceTrims(j);
  }

  lemma {:induction false} IndexIsFirst(s: string, c: char, k: nat)
    requires k < |s| && s[k] == c && c !in s[..k]
    ensures IndexOf(s, c) == k
    decreases k
  {
    if k != 0 {
      assert s[..k] == [s[0]] + s[1..][..k - 1];
      IndexIsFirst(s[1..], c, k - 1);
    }
  }

  /** The two names come back out of a served name exactly when the base has no separator; the adapter's
      own name may have one. The base alone comes back on the same condition, which is what the mount's
      validation checks. */
  lemma SplitUndoesJoin(base: string, adapter: string)
    requires Clean(base) && Clean(adapter)
    ensures Split(Join(base, adapter)) == (base, adapter) <==> SEPARATOR !in base
    ensures Split(Join(base, adapter)).0 == base <==> SEPARATOR !in base
  {
    JoinIsClean(base, adapter);
    var j := Join(base, adapter);
    assert j[..|base|] == base && j[|base| + 1..] == adapter && j[|base|] == SEPARATOR;
    if SEPARATOR !in base {
      IndexIsFirst(j, SEPARATOR, |base|);
    } else {
      assert Split(j).0 == j[..IndexOf(j, SEPARATOR)];
    }
  }

  // ---- the adapter record ----

  function Lower(c: char): char {
    if 'A' <= c <= 'Z' then c - 'A' + 'a' else c
  }

  /** ToLower as far as it matters here: no other character lowers to a letter of the two method names. */
  function ToLower(s: string): (r: string)
    ensures |r| == |s|
  {
    seq(|s|, i requires 0 <= i < |s| => Lower(s[i]))
  }

  /** What Normalize makes of an adapter; the tenant is left as it is. */
  function NormalAdapter(a: Adapter): Adapter {
    var kind := ToLower(TrimSpace(a.kind));
    a.(name := TrimSpace(a.name), baseModel := TrimSpace(a.baseModel), path := TrimSpace(a.path),
    sourceJob := TrimSpace(a.sourceJob),
    kind := if kind == "" then "lora" else kind,
    rank := if a.rank == 0 then 8 else a.rank)
  }

  predicate ValidAdapter(a: Adapter) {
    a.name != "" && a.baseModel != "" && a.path != "" && 0 < a.rank <= MAX_RANK && a.kind in ["lora", "qlora"]
  }

  // ---- the mount record ----

  /** A mount as it is filled in, with the adapter's name, which is not stored. */
  datatype Form = Form(row: Mount, adapterName: string)

  /** What Normalize makes of a form: every field trimmed, the served name filled in if it is missing. */
  function NormalForm(f: Form): Form {
    var name := TrimSpace(f.adapterName);
    var base := TrimSpace(f.row.baseModel);
    var served := TrimSpace(f.row.servedName);
    Form(Mount(TrimSpace(f.row.adapterId), TrimSpace(f.row.serviceId),
               if served == "" && base != "" && name != "" then Join(base, name) else served,
               base, TrimSpace(f.row.tenant)),
         name)
  }

  predicate ValidMount(m: Mount) {
    && m.adapterId != "" && m.serviceId != "" && m.servedName != "" && m.baseModel != "" && m.tenant != ""
    && Split(m.servedName).0 == m.baseModel
  }

  /** The handler and the repository both normalize; doing it twice is doing it once. */
  lemma NormalizeTwice(f: Form)
    ensures NormalForm(NormalForm(f)) == NormalForm(f)
  {
    var n := NormalForm(f);
    TrimSpaceTrims(f.row.adapterId);
    TrimSpaceTrims(n.row.adapterId);
    TrimSpaceTrims(f.row.serviceId);
    TrimSpaceTrims(n.row.serviceId);
    TrimSpaceTrims(f.row.servedName);
    TrimSpaceTrims(n.row.servedName);
    TrimSpaceTrims(f.row.baseModel);
    TrimSpaceTrims(n.row.baseModel);
    TrimSpaceTrims(f.row.tenant);
    TrimSpaceTrims(n.row.tenant);
    TrimSpaceTrims(f.adapterName);
    TrimSpaceTrims(n.adapterName);
    if n.row.baseModel != "" && n.adapterName != "" {
      JoinIsClean(n.row.baseModel, n.adapterName);
    }
  }

  // ---- the tables ----

  /** A scope sees one tenant's rows; the empty scope, a platform administrator's, sees all of them. */
  predicate InScope(scope: string, tenant: string) {
    scope == "" || tenant == scope
  }

  predicate NameTaken(adapters: map<string, Adapter>, tenant: string, name: string) {
    exists id | id in adapters :: adapters[id].tenant == tenant && adapters[id].name == name
  }

  predicate ServedTaken(mounts: map<string, Mount>, tenant: string, served: string) {
    exists id | id in mounts :: mounts[id].tenant == tenant && mounts[id].servedName == served
  }

  predicate IsMounted(mounts: map<string, Mount>, scope: string, adapterId: string) {
    exists id | id in mounts :: InScope(scope, mounts[id].tenant) && mounts[id].adapterId == adapterId
  }

  predicate Matches(m: Mount, scope: string, adapterId: string, serviceId: string) {
    InScope(scope, m.tenant) && m.adapterId == adapterId && m.serviceId == serviceId
  }

  function Matching(mounts: map<string, Mount>, scope: string, adapterId: string, serviceId: string): set<string> {
    set id | id in mounts && Matches(mounts[id], scope, adapterId, serviceId)
  }

  /** The keys of the mounts in scope with the served name. */
  function Serving(mounts: map<string, Mount>, scope: string, served: string): set<string> {
    set id | id in mounts && InScope(scope, mounts[id].tenant) && mounts[id].servedName == served
  }

  /** What the handlers do to the tables. `principal` is the caller's own tenant, `scope` the tenants it
      may see; `id` is the key that a new row gets. Services come and go by other handlers. */
  datatype Event =
    | Create(id: string, tenant: string, given: Adapter, jobKnown: bool)
    | MountOn(id: string, scope: string, principal: string, adapterId: string, serviceId: string)
    | Unmount(scope: string, adapterId: string, serviceId: string)
    | Delete(scope: string, adapterId: string)
    | PutService(serviceId: string, service: Service)
    | DropService(serviceId: string)

  /** The mount that the handler fills in: tenant, base model and name are the adapter's. */
  function FormFor(adapterId: string, a: Adapter, serviceId: string): Form {
    Form(Mount(adapterId, serviceId, "", a.baseModel, a.tenant), a.name)
  }

  /** The answer to a request. */
  function Verdict(s: Tables, e: Event): Answer {
    match e
    case Create(_, tenant, given, jobKnown) =>
      var a := NormalAdapter(given);
      if tenant == "" then MissingTenant
      else if !ValidAdapter(a) then Invalid
      else if a.sourceJob != "" && !jobKnown then SourceJobNotFound
      else if NameTaken(s.adapters, tenant, a.name) then NameConflict
      else Ok
    case MountOn(_, scope, principal, adapterId, serviceId) =>
      if TrimSpace(serviceId) == "" then ServiceIdRequired
      else if adapterId !in s.adapters || !InScope(scope, s.adapters[adapterId].tenant) then NotFound
      else if serviceId !in s.services || !InScope(principal, s.services[serviceId].tenant) then ServiceNotFound
      else if s.services[serviceId].name != s.adapters[adapterId].baseModel then IncompatibleBase
      else var m := NormalForm(FormFor(adapterId, s.adapters[adapterId], serviceId)).row;
           if !ValidMount(m) then Invalid
           else if ServedTaken(s.mounts, m.tenant, m.servedName) then MountConflict
           else Ok
    case Unmount(scope, adapterId, serviceId) =>
      if Matching(s.mounts, scope, adapterId, serviceId) == {} then NotMounted else Ok
    case Delete(scope, adapterId) =>
      if IsMounted(s.mounts, scope, adapterId) then StillMounted
      else if adapterId !in s.adapters || !InScope(scope, s.adapters[adapterId].tenant) then NotFound
      else Ok
    case PutService(_, _) => Ok
    case DropService(_) => Ok
  }

  /** The tables after a request: unchanged unless it is answered Ok. */
  function Step(s: Tables, e: Event): Tables {
    if !Verdict(s, e).Ok? then s
    else match e
         case Create(id, tenant, given, _) =>
           s.(adapters := s.adapters[id := NormalAdapter(given).(tenant := tenant)])
         case MountOn(id, _, _, adapterId, serviceId) =>
           s.(mounts := s.mounts[id := NormalForm(FormFor(adapterId, s.adapters[adapterId], serviceId)).row])
         case Unmount(scope, adapterId, serviceId) =>
           s.(mounts := s.mounts - Matching(s.mounts, scope, adapterId, serviceId))
         case Delete(_, adapterId) => s.(adapters := s.adapters - {adapterId})
         case PutService(id, service) => s.(services := s.services[id := service])
         case DropService(id) => s.(services := s.services - {id})
  }

  // ---- the mutable records and tables ----

  class MountForm {
    var adapterId: string
    var serviceId: string
    var servedName: string
    var baseModel: string
    var adapterName: string
    var tenant: string

    function View(): Form
      reads this
    {
      Form(Mount(adapterId, serviceId, servedName, baseModel, tenant), adapterName)
    }

    constructor (f: Form)
      ensures View() == f
    {
      adapterId, serviceId, servedName := f.row.adapterId, f.row.serviceId, f.row.servedName;
      baseModel, adapterName, tenant := f.row.baseModel, f.adapterName, f.row.tenant;
    }

    method Normalize()
      modifies this
      ensures View() == NormalForm(old(View()))
    {
      adapterId := TrimSpace(adapterId);
      serviceId := TrimSpace(serviceId);
      servedName := TrimSpace(servedName);
      baseModel := TrimSpace(baseModel);
      adapterName := TrimSpace(adapterName);
      tenant := TrimSpace(tenant);
      if servedName == "" && baseModel != "" && adapterName != "" {
        servedName := Join(baseModel, adapterName);
      }
    }

    /** Reports every missing field, and a served name whose prefix is not the base model. */
    method Validate() returns (ok: bool)
      ensures ok <==> ValidMount(View().row)
    {
      if adapterId == "" || serviceId == "" || servedName == "" || baseModel == "" || tenant == "" {
        return false;
      }
      var (base, _) := Split(servedName);
      return base == baseModel;
    }
  }

  class Registry {
    var adapters: map<string, Adapter>
    var mounts: map<string, Mount>
    var services: map<string, Service>

    function View(): Tables
      reads this
    {
      Tables(adapters, mounts, services)
    }

    constructor ()
      ensures View() == Tables(map[], map[], map[])
    {
      adapters, mounts, services := map[], map[], map[];
    }

    method CreateAdapter(id: string, tenant: string, given: Adapter, jobKnown: bool) returns (ans: Answer)
      modifies this`adapters
      ensures View() == Step(old(View()), Create(id, tenant, given, jobKnown))
      ensures ans == Verdict(old(View()), Create(id, tenant, given, jobKnown))
    {
      if tenant == "" {
        return MissingTenant;
      }
      var a := NormalAdapter(given.(tenant := tenant));
      if !ValidAdapter(a) {
        return Invalid;
      }
      if a.sourceJob != "" && !jobKnown {
        return SourceJobNotFound;
      }
      if NameTaken(adapters, a.tenant, a.name) {
        return NameConflict;
      }
      adapters := adapters[id := a];
      return Ok;
    }

    /** The repository's insert. */
    method InsertMount(id: string, m: MountForm) returns (ans: Answer)
      modifies this`mounts, m
      ensures m.View() == NormalForm(old(m.View()))
      ensures ans == if !ValidMount(m.View().row) then Invalid
                     else if ServedTaken(old(mounts), m.View().row.tenant, m.View().row.servedName) then MountConflict
                     else Ok
      ensures mounts == if ans.Ok? then old(mounts)[id := m.View().row] else old(mounts)
    {
      m.Normalize();
      var valid := m.Validate();
      if !valid {
        return Invalid;
      }
      if ServedTaken(mounts, m.tenant, m.servedName) {
        return MountConflict;
      }
      mounts := mounts[id := Mount(m.adapterId, m.serviceId, m.servedName, m.baseModel, m.tenant)];
      return Ok;
    }

    /** The mount handler. */
    method MountAdapter(id: string, scope: string, principal: string, adapterId: string, serviceId: string)
      returns (ans: Answer)
      modifies this`mounts
      ensures View() == Step(old(View()), MountOn(id, scope, principal, adapterId, serviceId))
      ensures ans == Verdict(old(View()), MountOn(id, scope, principal, adapterId, serviceId))
    {
      if TrimSpace(serviceId) == "" {
        return ServiceIdRequired;
      }
      if adapterId !in adapters || !InScope(scope, adapters[adapterId].tenant) {
        return NotFound;
      }
      var adapter := adapters[adapterId];
      if serviceId !in services || !InScope(principal, services[serviceId].tenant) {
        return ServiceNotFound;
      }
      if services[serviceId].name != adapter.baseModel {
        return IncompatibleBase;
      }
      var m := new MountForm(FormFor(adapterId, adapter, serviceId));
      m.Normalize();
      NormalizeTwice(FormFor(adapterId, adapter, serviceId));
      ans := InsertMount(id, m);
    }

    method UnmountAdapter(scope: string, adapterId: string, serviceId: string) returns (ans: Answer)
      modifies this`mounts
      ensures View() == Step(old(View()), Unmount(scope, adapterId, serviceId))
      ensures ans == Verdict(old(View()), Unmount(scope, adapterId, serviceId))
    {
      var gone := Matching(mounts, scope, adapterId, serviceId);
      mounts := mounts - gone;
      ans := if |gone| == 0 then NotMounted else Ok;
    }

    method DeleteAdapter(scope: string, adapterId: string) returns (ans: Answer)
      modifies this`adapters
      ensures View() == Step(old(View()), Delete(scope, adapterId))
      ensures ans == Verdict(old(View()), Delete(scope, adapterId))
    {
      if IsMounted(mounts, scope, adapterId) {
        return StillMounted;
      }
      if adapterId !in adapters || !InScope(scope, adapters[adapterId].tenant) {
        return NotFound;
      }
      adapters := adapters - {adapterId};
      return Ok;
    }

    /** Looks a served name up within a scope; of several matches the one with the least key is taken. */
    method ResolveServedName(scope: string, served: string) returns (m: Option<Mount>)
      ensures m.None? <==> Serving(mounts, scope, served) == {}
      ensures m.Some? ==> exists id | id in Serving(mounts, scope, served) ::
                m.value == mounts[id] && forall k | k in Serving(mounts, scope, served) && k != id :: Less(id, k)
    {
      var hits := Serving(mounts, scope, served);
      if hits == {} {
        return None;
      }
      ghost var least := LeastExists(hits);
      var id :| id in hits && forall k | k in hits && k != id :: Less(id, k);
      return Some(mounts[id]);
    }
  }

  // ---- invariants ----

  predicate AdaptersClean(adapters: map<string, Adapter>) {
    forall id | id in adapters :: Trimmed(id) && Clean(adapters[id].name) && Clean(adapters[id].baseModel)
  }

  predicate NamesUnique(adapters: map<string, Adapter>) {
    forall i, j | i in adapters && j in adapters && i != j ::
      adapters[i].tenant != adapters[j].tenant || adapters[i].name != adapters[j].name
  }

  predicate ServedUnique(mounts: map<string, Mount>) {
    forall i, j | i in mounts && j in mounts && i != j ::
      mounts[i].tenant != mounts[j].tenant || mounts[i].servedName != mounts[j].servedName
  }

  predicate TenantsTrimmed(adapters: map<string, Adapter>) {
    forall id | id in adapters :: Trimmed(adapters[id].tenant)
  }

  /** The mount refers to an existing adapter and carries its tenant (trimmed), base model and served
      name; the base has no separator. */
  predicate Linked(m: Mount, adapters: map<string, Adapter>) {
    && m.adapterId in adapters
    && var a := adapters[m.adapterId];
       m.tenant == TrimSpace(a.tenant) && m.baseModel == a.baseModel && m.servedName == Join(a.baseModel, a.name)
       && SEPARATOR !in a.baseModel
  }

  predicate AllLinked(s: Tables) {
    forall id | id in s.mounts :: Linked(s.mounts[id], s.adapters)
  }

  predicate Inv(s: Tables) {
    AdaptersClean(s.adapters) && NamesUnique(s.adapters) && ServedUnique(s.mounts)
  }

  /** New rows get unused keys without white space, as the id generator's are. */
  predicate Admissible(s: Tables, e: Event) {
    && (e.Create? ==> e.id !in s.adapters && Trimmed(e.id) && e.id !in (set m | m in s.mounts :: s.mounts[m].adapterId))
    && (e.MountOn? ==> e.id !in s.mounts)
  }

  lemma NormalAdapterIsClean(a: Adapter)
    requires ValidAdapter(NormalAdapter(a))
    ensures Clean(NormalAdapter(a).name) && Clean(NormalAdapter(a).baseModel)
  {
    TrimSpaceTrims(a.name);
    TrimSpaceTrims(a.baseModel);
  }

  /** The row that a mount stores, for a clean adapter; it is refused exactly when the base has the
      separator or a trimmed field is empty. */
  lemma FormIsExact(id: string, a: Adapter, serviceId: string)
    requires Trimmed(id) && Clean(a.name) && Clean(a.baseModel)
    ensures var m := NormalForm(FormFor(id, a, serviceId)).row;
            && m == Mount(id, TrimSpace(serviceId), Join(a.baseModel, a.name), a.baseModel, TrimSpace(a.tenant))
            && (ValidMount(m) <==> id != "" && TrimSpace(serviceId) != "" && TrimSpace(a.tenant) != ""
                                   && SEPARATOR !in a.baseModel)
  {
    TrimSpaceTrims(id);
    TrimSpaceTrims(a.baseModel);
    TrimSpaceTrims(a.name);
    TrimSpaceTrims("");
    SplitUndoesJoin(a.baseModel, a.name);
    hide TrimSpace, Trimmed, Split;
  }

  /** What a mount that is answered Ok stores. */
  lemma MountCarriesAdapter(s: Tables, e: Event)
    requires Inv(s) && e.MountOn? && Verdict(s, e).Ok?
    ensures e.id in Step(s, e).mounts && Linked(Step(s, e).mounts[e.id], s.adapters)
  {
    FormIsExact(e.adapterId, s.adapters[e.adapterId], e.serviceId);
    hide TrimSpace, Trimmed, Split, NormalForm, ValidMount, Join;
  }

  lemma StepKeepsInv(s: Tables, e: Event)
    requires Inv(s) && Admissible(s, e)
    ensures Inv(Step(s, e))
  {
    hide NormalAdapter, TrimSpace, NormalForm, Trimmed, Split, ToLower;
    if e.Create? && Verdict(s, e).Ok? {
      NormalAdapterIsClean(e.given);
    }
  }

  // ---- the delete guard ----

  /** A request unlinks a mount in one case only: a delete in a scope with white space at an end, whose
      adapter is mounted. The mount carries the trimmed tenant, so the guard does not see it. */
  predicate Blind(s: Tables, e: Event) {
    e.Delete? && e.scope != "" && !Trimmed(e.scope) && e.adapterId in s.adapters
    && s.adapters[e.adapterId].tenant == e.scope && IsMounted(s.mounts, "", e.adapterId)
  }

  lemma LinksBreakExactlyIfBlind(s: Tables, e: Event)
    requires Inv(s) && Admissible(s, e) && AllLinked(s)
    ensures AllLinked(Step(s, e)) <==> !Blind(s, e)
  {
    if e.Delete? {
      DeleteBreaksExactlyIfBlind(s, e.scope, e.adapterId);
    } else if e.MountOn? && Verdict(s, e).Ok? {
      MountCarriesAdapter(s, e);
    } else {
      hide NormalAdapter, TrimSpace, NormalForm, Trimmed, Split, Join;
    }
  }

  lemma DeleteBreaksExactlyIfBlind(s: Tables, scope: string, adapterId: string)
    requires AllLinked(s)
    ensures AllLinked(Step(s, Delete(scope, adapterId))) <==> !Blind(s, Delete(scope, adapterId))
  {
    TrimSpaceTrims(scope);
    hide TrimSpace, Trimmed, Join;
    var e := Delete(scope, adapterId);
    if Verdict(s, e).Ok? {
      var gone := Step(s, e).adapters;
      if IsMounted(s.mounts, "", adapterId) {
        var m :| m in s.mounts && s.mounts[m].adapterId == adapterId;
        assert !Linked(s.mounts[m], gone);
        assert TrimSpace(s.adapters[adapterId].tenant) == s.mounts[m].tenant;
        assert !InScope(scope, s.mounts[m].tenant);
      } else {
        assert forall m | m in s.mounts :: InScope("", s.mounts[m].tenant) && s.mounts[m].adapterId != adapterId;
        assert forall m | m in s.mounts :: Linked(s.mounts[m], gone);
      }
    }
  }

  // ---- runs ----

  function After(s: Tables, run: seq<Event>): Tables
    decreases |run|
  {
    if run == [] then s else After(Step(s, run[0]), run[1..])
  }

  predicate AdmissibleRun(s: Tables, run: seq<Event>)
    decreases |run|
  {
    run == [] || (Admissible(s, run[0]) && AdmissibleRun(Step(s, run[0]), run[1..]))
  }

  /** Every adapter is created for a tenant without white space at its ends. */
  predicate TrimmedTenants(run: seq<Event>) {
    forall e | e in run :: e.Create? ==> Trimmed(e.tenant)
  }

  const START := Tables(map[], map[], map[])

  lemma {:induction false} RunKeepsInv(s: Tables, run: seq<Event>)
    requires Inv(s) && AdmissibleRun(s, run)
    ensures Inv(After(s, run))
    decreases |run|
  {
    if run != [] {
      StepKeepsInv(s, run[0]);
      RunKeepsInv(Step(s, run[0]), run[1..]);
    }
  }

  lemma StepKeepsTrimmed(s: Tables, e: Event)
    requires TenantsTrimmed(s.adapters) && (e.Create? ==> Trimmed(e.tenant))
    ensures TenantsTrimmed(Step(s, e).adapters) && !Blind(s, e)
  {
    hide NormalForm, NormalAdapter, Trimmed, TrimSpace;
  }

  lemma {:induction false} RunKeepsLinks(s: Tables, run: seq<Event>)
    requires Inv(s) && AllLinked(s) && TenantsTrimmed(s.adapters)
    requires AdmissibleRun(s, run) && TrimmedTenants(run)
    ensures AllLinked(After(s, run)) && TenantsTrimmed(After(s, run).adapters)
    decreases |run|
  {
    if run != [] {
      var e := run[0];
      StepKeepsInv(s, e);
      LinksBreakExactlyIfBlind(s, e);
      StepKeepsTrimmed(s, e);
      hide Step, Inv, AllLinked, Admissible, Blind;
      RunKeepsLinks(Step(s, e), run[1..]);
    }
  }

  /** In every run that creates adapters for trimmed tenants only, each mount refers to an existing
      adapter with the same tenant and base model, and its served name splits into that adapter's base
      model and name. */
  lemma MountsReferToAdapters(run: seq<Event>, id: string)
    requires AdmissibleRun(START, run) && TrimmedTenants(run) && id in After(START, run).mounts
    ensures var end := After(START, run);
            var m := end.mounts[id];
            && m.adapterId in end.adapters
            && m.tenant == end.adapters[m.adapterId].tenant
            && m.baseModel == end.adapters[m.adapterId].baseModel
            && Split(m.servedName) == (end.adapters[m.adapterId].baseModel, end.adapters[m.adapterId].name)
  {
    RunKeepsInv(START, run);
    RunKeepsLinks(START, run);
    var end := After(START, run);
    var a := end.adapters[end.mounts[id].adapterId];
    TrimSpaceTrims(a.tenant);
    SplitUndoesJoin(a.baseModel, a.name);
  }

  /** In every run, whatever its tenants, a tenant's served names are distinct; and with trimmed tenants
      an adapter is mounted at most once, so its served name resolves to its own mount. */
  lemma ServedNamesResolve(run: seq<Event>, i: string, j: string)
    requires AdmissibleRun(START, run) && i in After(START, run).mounts && j in After(START, run).mounts
    ensures var mounts := After(START, run).mounts;
            && (mounts[i].tenant == mounts[j].tenant && mounts[i].servedName == mounts[j].servedName ==> i == j)
            && (TrimmedTenants(run) && mounts[i].adapterId == mounts[j].adapterId ==> i == j)
  {
    RunKeepsInv(START, run);
    if TrimmedTenants(run) {
      RunKeepsLinks(START, run);
    }
  }

  /** Within a tenant, two mounts with the same adapter name are of the same adapter. */
  lemma AdapterNamesIdentify(run: seq<Event>, i: string, j: string)
    requires AdmissibleRun(START, run) && TrimmedTenants(run)
    requires i in After(START, run).mounts && j in After(START, run).mounts
    requires After(START, run).mounts[i].tenant == After(START, run).mounts[j].tenant
    requires Split(After(START, run).mounts[i].servedName).1 == Split(After(START, run).mounts[j].servedName).1
    ensures i == j
  {
    MountsReferToAdapters(run, i);
    MountsReferToAdapters(run, j);
    RunKeepsInv(START, run);
    ServedNamesResolve(run, i, j);
  }

  // ---- what one request undoes ----

  /** An unmount undoes the mount before it, and nothing else: no earlier mount of the adapter can have
      been there, or the served name would have been taken. */
  lemma UnmountUndoesMount(s: Tables, e: Event, scope: string)
    requires Inv(s) && AllLinked(s) && e.MountOn? && Admissible(s, e) && Verdict(s, e).Ok?
    requires e.adapterId in s.adapters && InScope(scope, TrimSpace(s.adapters[e.adapterId].tenant))
    ensures Step(Step(s, e), Unmount(scope, e.adapterId, TrimSpace(e.serviceId))) == s
  {
    hide Inv, AllLinked, Step, Verdict, Matching, TrimSpace, Admissible, InScope;
    MountIsFirst(s, e);
    var t := Step(s, e);
    UnmountOnly(t, scope, e.id);
    assert t.mounts - {e.id} == s.mounts;
  }

  lemma UnmountOnly(s: Tables, scope: string, id: string)
    requires id in s.mounts && InScope(scope, s.mounts[id].tenant)
    requires forall k | k in s.mounts && k != id :: s.mounts[k].adapterId != s.mounts[id].adapterId
    ensures Step(s, Unmount(scope, s.mounts[id].adapterId, s.mounts[id].serviceId)) == s.(mounts := s.mounts - {id})
  {
    assert Matching(s.mounts, scope, s.mounts[id].adapterId, s.mounts[id].serviceId) == {id};
  }

  lemma MountIsFirst(s: Tables, e: Event)
    requires Inv(s) && AllLinked(s) && e.MountOn? && Admissible(s, e) && Verdict(s, e).Ok?
    ensures var t := Step(s, e);
            && t == s.(mounts := s.mounts[e.id := t.mounts[e.id]])
            && t.mounts[e.id].adapterId == e.adapterId && t.mounts[e.id].serviceId == TrimSpace(e.serviceId)
            && t.mounts[e.id].tenant == TrimSpace(s.adapters[e.adapterId].tenant)
    ensures e.id !in s.mounts && forall id | id in s.mounts :: s.mounts[id].adapterId != e.adapterId
  {
    var row := NormalForm(FormFor(e.adapterId, s.adapters[e.adapterId], e.serviceId)).row;
    FormIsExact(e.adapterId, s.adapters[e.adapterId], e.serviceId);
    OkMount(s, e);
    hide Step, Verdict, NormalForm, FormFor, ValidMount, TrimSpace, Trimmed, Split, Join, ServedTaken;
    hide NamesUnique, ServedUnique, AllLinked;
    OthersAreOfOthers(s, row, e.adapterId);
  }

  /** What a mount that is answered Ok does to the tables. */
  lemma OkMount(s: Tables, e: Event)
    requires e.MountOn? && Verdict(s, e).Ok?
    ensures e.adapterId in s.adapters
    ensures var row := NormalForm(FormFor(e.adapterId, s.adapters[e.adapterId], e.serviceId)).row;
            && Step(s, e) == s.(mounts := s.mounts[e.id := row])
            && ValidMount(row) && !ServedTaken(s.mounts, row.tenant, row.servedName)
  {
    hide NormalForm, FormFor, ValidMount, TrimSpace, ServedTaken;
  }

  /** While a served name is free no stored mount is of its adapter. */
  lemma OthersAreOfOthers(s: Tables, m: Mount, adapterId: string)
    requires AllLinked(s) && adapterId in s.adapters && !ServedTaken(s.mounts, m.tenant, m.servedName)
    requires var a := s.adapters[adapterId];
             m.tenant == TrimSpace(a.tenant) && m.servedName == Join(a.baseModel, a.name)
    ensures forall id | id in s.mounts :: s.mounts[id].adapterId != adapterId
  {
    hide TrimSpace, Join;
    forall id | id in s.mounts ensures s.mounts[id].adapterId != adapterId {
      assert Linked(s.mounts[id], s.adapters);
    }
  }

  /** A delete by the same tenant undoes a create. */
  lemma DeleteUndoesCreate(s: Tables, e: Event)
    requires e.Create? && Admissible(s, e) && Verdict(s, e).Ok?
    ensures Step(Step(s, e), Delete(e.tenant, e.id)) == s
  {
    hide NormalAdapter, ValidAdapter, TrimSpace;
    var t := Step(s, e);
    assert !IsMounted(t.mounts, e.tenant, e.id);
    assert t.adapters - {e.id} == s.adapters;
  }

  // ---- the condition is needed ----

  const SAMPLE := Adapter("n", "b", "p", 1, "lora", "", "")

  function SampleMount(tenant: string): Mount {
    Mount("a", "s", "b:n", "b", TrimSpace(tenant))
  }

  lemma SampleIsNormal()
    ensures NormalAdapter(SAMPLE) == SAMPLE && ValidAdapter(SAMPLE)
  {
    TrimSpaceTrims("n");
    TrimSpaceTrims("b");
    TrimSpaceTrims("p");
    TrimSpaceTrims("");
    TrimSpaceTrims("lora");
    assert ToLower("lora") == "lora";
  }

  lemma SampleMountIsValid(tenant: string)
    requires TrimSpace(tenant) != ""
    ensures NormalForm(FormFor("a", SAMPLE.(tenant := tenant), "s")).row == SampleMount(tenant)
    ensures ValidMount(SampleMount(tenant))
  {
    TrimSpaceTrims("s");
    hide TrimSpace, Split, NormalForm, ValidMount;
    FormIsExact("a", SAMPLE.(tenant := tenant), "s");
    assert Join("b", "n") == "b:n";
  }

  /** Whatever the tenant, a create, a mount and a delete, all by that tenant, leave the mount linked
      exactly when the tenant has no white space at its ends. */
  lemma TrimmedTenantsAreNeeded(tenant: string)
    requires TrimSpace(tenant) != ""
    ensures var run := [PutService("s", Service(tenant, "b")), Create("a", tenant, SAMPLE, true),
                        MountOn("m", tenant, tenant, "a", "s"), Delete(tenant, "a")];
            AdmissibleRun(START, run) && (AllLinked(After(START, run)) <==> Trimmed(tenant))
  {
    var e0, e1 := PutService("s", Service(tenant, "b")), Create("a", tenant, SAMPLE, true);
    var e2, e3 := MountOn("m", tenant, tenant, "a", "s"), Delete(tenant, "a");
    var s2 := Step(Step(START, e0), e1);
    var s3 := Step(s2, e2);
    SampleRun(e0, e1, e2, e3);
    SampleSetup(tenant);
    SampleDelete(s3, tenant);
    hide NormalForm, NormalAdapter, ValidMount, TrimSpace, Split, AllLinked, After, AdmissibleRun;
  }

  lemma SampleSetup(tenant: string)
    requires TrimSpace(tenant) != ""
    ensures var s2 := Step(Step(START, PutService("s", Service(tenant, "b"))), Create("a", tenant, SAMPLE, true));
            && s2 == Tables(map["a" := SAMPLE.(tenant := tenant)], map[], map["s" := Service(tenant, "b")])
            && Step(s2, MountOn("m", tenant, tenant, "a", "s")) == s2.(mounts := map["m" := SampleMount(tenant)])
  {
    assert tenant != "" by {
      TrimSpaceTrims("");
    }
    var s1 := Tables(map[], map[], map["s" := Service(tenant, "b")]);
    assert Step(START, PutService("s", Service(tenant, "b"))) == s1;
    SampleCreates(s1, tenant);
    SampleMounts(tenant);
    hide Step;
  }

  lemma SampleCreates(s: Tables, tenant: string)
    requires tenant != "" && s.adapters == map[]
    ensures Step(s, Create("a", tenant, SAMPLE, true)) == s.(adapters := map["a" := SAMPLE.(tenant := tenant)])
  {
    SampleIsNormal();
    hide NormalAdapter, ValidAdapter;
    assert Verdict(s, Create("a", tenant, SAMPLE, true)) == Ok;
  }

  lemma SampleMounts(tenant: string)
    requires TrimSpace(tenant) != ""
    ensures var s := Tables(map["a" := SAMPLE.(tenant := tenant)], map[], map["s" := Service(tenant, "b")]);
            Step(s, MountOn("m", tenant, tenant, "a", "s")) == s.(mounts := map["m" := SampleMount(tenant)])
  {
    TrimSpaceTrims("s");
    SampleMountIsValid(tenant);
    hide NormalForm, ValidMount, TrimSpace, FormFor, SampleMount;
    var s := Tables(map["a" := SAMPLE.(tenant := tenant)], map[], map["s" := Service(tenant, "b")]);
    assert SAMPLE.(tenant := tenant).baseModel == "b";
    FirstMount(s, MountOn("m", tenant, tenant, "a", "s"));
  }

  /** A mount into an empty table is answered Ok if all but the uniqueness check pass. */
  lemma FirstMount(s: Tables, e: Event)
    requires e.MountOn? && s.mounts == map[] && TrimSpace(e.serviceId) != ""
    requires e.adapterId in s.adapters && InScope(e.scope, s.adapters[e.adapterId].tenant)
    requires e.serviceId in s.services && InScope(e.principal, s.services[e.serviceId].tenant)
    requires s.services[e.serviceId].name == s.adapters[e.adapterId].baseModel
    requires ValidMount(NormalForm(FormFor(e.adapterId, s.adapters[e.adapterId], e.serviceId)).row)
    ensures Step(s, e) == s.(mounts :=
              map[e.id := NormalForm(FormFor(e.adapterId, s.adapters[e.adapterId], e.serviceId)).row])
  {
    hide NormalForm, ValidMount, TrimSpace, FormFor;
  }

  /** A run of four steps, written out. */
  lemma SampleRun(e0: Event, e1: Event, e2: Event, e3: Event)
    ensures var s1 := Step(START, e0);
            var s2 := Step(s1, e1);
            var s3 := Step(s2, e2);
            && After(START, [e0, e1, e2, e3]) == Step(s3, e3)
            && (Admissible(START, e0) && Admissible(s1, e1) && Admissible(s2, e2) && Admissible(s3, e3)
                ==> AdmissibleRun(START, [e0, e1, e2, e3]))
  {
    hide Step, Admissible;
    var s1 := Step(START, e0);
    var s2 := Step(s1, e1);
    var s3 := Step(s2, e2);
    assert [e3][1..] == [] && [e2, e3][1..] == [e3] && [e1, e2, e3][1..] == [e2, e3];
    assert [e0, e1, e2, e3][1..] == [e1, e2, e3];
    assert After(s3, [e3]) == Step(s3, e3);
    assert After(s2, [e2, e3]) == Step(s3, e3);
    assert After(s1, [e1, e2, e3]) == Step(s3, e3);
    assert Admissible(s3, e3) ==> AdmissibleRun(s3, [e3]);
    assert Admissible(s2, e2) && Admissible(s3, e3) ==> AdmissibleRun(s2, [e2, e3]);
    assert Admissible(s1, e1) && Admissible(s2, e2) && Admissible(s3, e3) ==> AdmissibleRun(s1, [e1, e2, e3]);
  }

  lemma SampleDelete(s: Tables, tenant: string)
    requires TrimSpace(tenant) != ""
    requires s == Tables(map["a" := SAMPLE.(tenant := tenant)], map["m" := SampleMount(tenant)],
                         map["s" := Service(tenant, "b")])
    ensures AllLinked(Step(s, Delete(tenant, "a"))) <==> Trimmed(tenant)
  {
    assert Join("b", "n") == "b:n";
    assert AllLinked(s);
    assert InScope("", s.mounts["m"].tenant) && s.mounts["m"].adapterId == "a";
    DeleteBreaksExactlyIfBlind(s, tenant, "a");
    assert tenant != "";
  }
}
