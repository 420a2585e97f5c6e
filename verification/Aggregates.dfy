/**
 The two aggregates behind one face: rows as the tables hold them, the scan that rebuilds an
 aggregate from a row, and the round trip between the two.
 */
module Aggregates {
  import opened Wrappers
  import opened Events
  import Catalog = CatalogDomain
  import Tenants = TenantDomain
  import Text

  datatype Aggregate = Svc(service: Catalog.Service) | Ten(tenant: Tenants.Tenant)

  datatype Command = OnService(onService: Catalog.Command) | OnTenant(onTenant: Tenants.Command)

  datatype Row =
    | ServiceRow(id: int, tenantId: int, name: string, description: string, tier: int, lifecycle: string,
                 repositoryUrl: string, owningTeam: string, onCallRef: string,
                 version: int, createdAt: Time, updatedAt: Time)
    | TenantRow(id: int, name: string, slug: string, plan: string, status: string, maxServices: int,
                version: int, createdAt: Time, updatedAt: Time)

  /** What the unique constraints range over. */
  datatype UniqueKey = TenantAndName(tenantId: int, name: string) | SlugOnly(slug: string)

  function IdOf(r: Row): AggId { if r.ServiceRow? then ServiceId(r.id) else TenantId(r.id) }

  function KeyOf(r: Row): UniqueKey {
    if r.ServiceRow? then TenantAndName(r.tenantId, r.name) else SlugOnly(r.slug)
  }

  function OwnerOf(r: Row): Catalog.Ownership
    requires r.ServiceRow?
  {
    Catalog.Ownership(r.owningTeam, r.onCallRef)
  }

  predicate Terminal(r: Row) {
    match r
    case ServiceRow(_, _, _, _, _, lifecycle, _, _, _, _, _, _) => lifecycle == "retired"
    case TenantRow(_, _, _, _, status, _, _, _, _) => status == "archived"
  }

  predicate Valid(a: Aggregate) {
    match a
    case Svc(s) => Catalog.Valid(s)
    case Ten(t) => Tenants.Valid(t)
  }

  predicate ValidCommand(c: Command) {
    match c
    case OnService(sc) => Catalog.ValidCommand(sc)
    case OnTenant(tc) => Tenants.ValidCommand(tc)
  }

  predicate Addresses(c: Command, id: AggId) { c.OnService? <==> id.ServiceId? }

  /** The columns INSERT writes. */
  function ToRow(a: Aggregate): Row {
    match a
    case Svc(s) =>
      ServiceRow(s.id, s.tenant, s.name, s.description, s.tier, Catalog.LifecycleText(s.lifecycle),
                 s.repository, s.owner.team, s.owner.onCall, s.version, s.createdAt, s.updatedAt)
    case Ten(t) =>
      TenantRow(t.id, t.name, t.slug, Tenants.PlanText(t.plan), Tenants.StatusText(t.status), t.quota,
                t.version, t.createdAt, t.updatedAt)
  }

  /** The row after UPDATE: the identifying columns are not among those it sets. */
  function WriteBack(replaced: Row, a: Aggregate): Row
    requires replaced.ServiceRow? <==> a.Svc?
  {
    var r := ToRow(a);
    if r.ServiceRow? then
      r.(id := replaced.id, tenantId := replaced.tenantId, name := replaced.name, createdAt := replaced.createdAt)
    else
      r.(id := replaced.id, slug := replaced.slug, createdAt := replaced.createdAt)
  }

  /** Rehydration: every stored value goes through its validating constructor again. */
  function Scan(r: Row): (a: Result<Aggregate>)
    ensures a.Ok? ==> (a.value.Svc? <==> r.ServiceRow?)
  {
    match r
    case ServiceRow(id, tenantId, name, description, tier, lifecycle, repo, team, onCall, version, created, updated) =>
      var n := Catalog.NewServiceName(name);
      var t := Catalog.NewTier(tier);
      var l := Catalog.ParseLifecycle(lifecycle);
      var o := Catalog.NewOwnership(team, onCall);
      if n.Err? || t.Err? || l.Err? || o.Err? then Err(DataCorruption)
      else Ok(Svc(Catalog.Service(id, tenantId, n.value, description, t.value, l.value, repo, o.value,
                                  version, created, updated)))
    case TenantRow(id, name, slug, plan, status, maxServices, version, created, updated) =>
      var n := Tenants.NewTenantName(name);
      var s := Tenants.NewSlug(slug);
      var p := Tenants.ParsePlan(plan);
      var st := Tenants.ParseStatus(status);
      var q := Tenants.NewQuota(maxServices);
      if n.Err? || s.Err? || p.Err? || st.Err? || q.Err? then Err(DataCorruption)
      else Ok(Ten(Tenants.Tenant(id, n.value, s.value, p.value, st.value, q.value, version, created, updated)))
  }

  /** Which rows scan: exactly those whose columns the value objects accept. */
  lemma {:induction false} ScanExactly(r: Row)
    ensures Scan(r).Err? ==> Scan(r).error == DataCorruption
    ensures r.ServiceRow? ==>
              (Scan(r).Ok? <==> && Catalog.CanonicalName(Text.Trim(r.name)) && 1 <= r.tier <= 4
                                && r.lifecycle in {"experimental", "production", "deprecated", "retired"}
                                && Text.Trim(r.owningTeam) != "")
    ensures r.TenantRow? ==>
              (Scan(r).Ok? <==> && Tenants.CanonicalName(Text.Trim(r.name)) && Tenants.CanonicalSlug(Text.Trim(r.slug))
                                && r.plan in {"free", "standard", "enterprise"} && r.status in {"active", "suspended", "archived"}
                                && r.maxServices >= 0)
  {
    if r.ServiceRow? {
      Catalog.NameExactly(r.name);
    } else {
      Tenants.NameExactly(r.name);
      Tenants.SlugExactly(r.slug);
    }
  }

  /** A scanned aggregate has the columns of its row. */
  lemma {:induction false} ScanColumns(r: Row)
    requires Scan(r).Ok?
    ensures r.ServiceRow? ==>
              var s := Scan(r).value.service;
              && (s.id, s.tenant, s.description, s.tier, s.repository) == (r.id, r.tenantId, r.description, r.tier, r.repositoryUrl)
              && Catalog.LifecycleText(s.lifecycle) == r.lifecycle
              && (s.version, s.createdAt, s.updatedAt) == (r.version, r.createdAt, r.updatedAt)
    ensures r.TenantRow? ==>
              var t := Scan(r).value.tenant;
              && (t.id, t.quota, t.version) == (r.id, r.maxServices, r.version)
              && Tenants.PlanText(t.plan) == r.plan && Tenants.StatusText(t.status) == r.status
              && (t.createdAt, t.updatedAt) == (r.createdAt, r.updatedAt)
  {
  }

  function Decide(a: Aggregate, c: Command, now: Time): (r: Result<(Aggregate, seq<Event>)>)
    requires a.Svc? <==> c.OnService?
    ensures r.Ok? ==> (r.value.0.Svc? <==> a.Svc?)
  {
    match c
    case OnService(sc) => (
      match Catalog.Decide(a.service, sc, now)
      case Ok((s, evs)) => Ok((Svc(s), evs))
      case Err(e) => Err(e))
    case OnTenant(tc) => (
      match Tenants.Decide(a.tenant, tc, now)
      case Ok((t, evs)) => Ok((Ten(t), evs))
      case Err(e) => Err(e))
  }

  /** A registration request: the inputs of RegisterService and CreateTenant. */
  datatype NewInput =
    | RegisterService(tenantId: int, name: string, description: string, tier: int, repository: string,
                      team: string, onCall: string)
    | CreateTenant(name: string, slug: string, plan: string, maxServices: int)

  /** Input validation and the fresh aggregate, stamped with one clock reading. */
  function Build(i: NewInput, id: int, now: Time): Result<Aggregate> {
    match i
    case RegisterService(tenantId, name, description, tier, repository, team, onCall) =>
      var n := Catalog.NewServiceName(name);
      var t := Catalog.NewTier(tier);
      var o := Catalog.NewOwnership(team, onCall);
      if n.Err? then Err(n.error) else if t.Err? then Err(t.error) else if o.Err? then Err(o.error)
      else Ok(Svc(Catalog.NewService(id, tenantId, n.value, description, t.value, repository, o.value, now)))
    case CreateTenant(name, slug, plan, maxServices) =>
      var n := Tenants.NewTenantName(name);
      var s := Tenants.NewSlug(slug);
      var p := Tenants.ParsePlan(plan);
      var q := Tenants.NewQuota(maxServices);
      if n.Err? then Err(n.error) else if s.Err? then Err(s.error) else if p.Err? then Err(p.error)
      else if q.Err? then Err(q.error)
      else Ok(Ten(Tenants.NewTenant(id, n.value, s.value, p.value, q.value, now)))
  }

  function BirthEvents(a: Aggregate): seq<Event> {
    match a
    case Svc(s) => Catalog.RegisteredEvents(s)
    case Ten(t) => Tenants.CreatedEvents(t)
  }

  /** As Register and Create leave it: valid, first version, initial state, one clock reading. */
  predicate Newborn(a: Aggregate) {
    && Valid(a)
    && match a
       case Svc(s) => s.version == 1 && s.createdAt == s.updatedAt && s.lifecycle == Catalog.Experimental
       case Ten(t) => t.version == 1 && t.createdAt == t.updatedAt && t.status == Tenants.Active
  }

  /** A row that reads back as the valid aggregate it was written from. */
  predicate Stored(r: Row) {
    Scan(r).Ok? && Valid(Scan(r).value) && ToRow(Scan(r).value) == r
  }

  /** Writing a valid aggregate and scanning it back changes nothing. */
  lemma {:induction false} RoundTrip(a: Aggregate)
    requires Valid(a)
    ensures Scan(ToRow(a)) == Ok(a)
    ensures Stored(ToRow(a))
  {
    match a
    case Svc(s) => ServiceRoundTrip(s);
    case Ten(t) => TenantRoundTrip(t);
  }

  lemma {:induction false} ServiceRoundTrip(s: Catalog.Service)
    requires Catalog.Valid(s)
    ensures Scan(ToRow(Svc(s))) == Ok(Svc(s))
  {
    Catalog.NameFixed(s.name);
    Catalog.OwnershipFixed(s.owner);
  }

  lemma {:induction false} TenantRoundTrip(t: Tenants.Tenant)
    requires Tenants.Valid(t)
    ensures Scan(ToRow(Ten(t))) == Ok(Ten(t))
  {
    Tenants.NameFixed(t.name);
    Tenants.SlugFixed(t.slug);
  }

  /** Stored rows are exactly the rows of valid aggregates. */
  lemma {:induction false} StoredExactly(r: Row)
    ensures Stored(r) <==> exists a :: Valid(a) && r == ToRow(a)
  {
    forall a | Valid(a) && r == ToRow(a) ensures Stored(r) {
      RoundTrip(a);
    }
  }

  /** One clause per fact the command protocol needs about a decided command. */
  ghost predicate Advances(r: Row, r': Row, events: seq<Event>, now: Time) {
    && Stored(r')
    && IdOf(r') == IdOf(r) && KeyOf(r') == KeyOf(r) && r'.createdAt == r.createdAt
    && (|| (r' == r && events == [])
        || (r'.version == r.version + 1 && r'.updatedAt == now && |events| == 1 && !Terminal(r)))
  }

  lemma {:induction false} DecideAdvances(r: Row, c: Command, now: Time)
    requires Stored(r) && ValidCommand(c) && (r.ServiceRow? <==> c.OnService?)
    requires Decide(Scan(r).value, c, now).Ok?
    ensures var (a, events) := Decide(Scan(r).value, c, now).value;
            Advances(r, ToRow(a), events, now) && WriteBack(r, a) == ToRow(a)
  {
    var (a, events) := Decide(Scan(r).value, c, now).value;
    match c
    case OnService(sc) =>
      Catalog.DecideKeepsValid(Scan(r).value.service, sc, now);
      RoundTrip(a);
    case OnTenant(tc) =>
      Tenants.DecideKeepsValid(Scan(r).value.tenant, tc, now);
      RoundTrip(a);
  }

  lemma {:induction false} DecideValid(r: Row, c: Command, now: Time)
    requires Stored(r) && ValidCommand(c) && (r.ServiceRow? <==> c.OnService?)
    requires Decide(Scan(r).value, c, now).Ok?
    ensures var (a, events) := Decide(Scan(r).value, c, now).value;
            Valid(a) && forall i | 0 <= i < |events| :: events[i].agg == IdOf(r)
  {
    match c
    case OnService(sc) =>
      Catalog.DecideKeepsValid(Scan(r).value.service, sc, now);
      Catalog.EventsAreAbout(Scan(r).value.service, sc, now);
    case OnTenant(tc) =>
      Tenants.DecideKeepsValid(Scan(r).value.tenant, tc, now);
      Tenants.EventsAreAbout(Scan(r).value.tenant, tc, now);
  }

  lemma {:induction false} BuildIsValid(i: NewInput, id: int, now: Time)
    requires Build(i, id, now).Ok?
    ensures var a := Build(i, id, now).value;
            Newborn(a) && Stored(ToRow(a)) && ToRow(a).createdAt == now
  {
    var a := Build(i, id, now).value;
    match i
    case RegisterService(_, name, _, _, _, team, onCall) =>
      Catalog.NameAccepted(name);
      Catalog.OwnershipAccepted(team, onCall);
      RoundTrip(a);
    case CreateTenant(name, slug, _, _) =>
      Tenants.NameAccepted(name);
      Tenants.SlugAccepted(slug);
      RoundTrip(a);
  }

  /** What a service registration stores, column by column, or the first of its inputs that is wrong. */
  lemma {:induction false} BuildServiceExactly(i: NewInput, id: int, now: Time)
    requires i.RegisterService?
    ensures var name, team := Text.Trim(i.name), Text.Trim(i.team);
            var b := Build(i, id, now);
            && (b == Err(InvalidServiceName) <==> !Catalog.CanonicalName(name))
            && (b == Err(InvalidTier) <==> Catalog.CanonicalName(name) && !(1 <= i.tier <= 4))
            && (b == Err(InvalidOwnership) <==> Catalog.CanonicalName(name) && 1 <= i.tier <= 4 && team == "")
            && (b.Ok? <==> Catalog.CanonicalName(name) && 1 <= i.tier <= 4 && team != "")
            && (b.Ok? ==>
                  && ToRow(b.value) == ServiceRow(id, i.tenantId, name, i.description, i.tier, "experimental",
                                                  i.repository, team, Text.Trim(i.onCall), 1, now, now)
                  && BirthEvents(b.value) == [Event(ServiceId(id), now, ServiceRegistered(i.tenantId, name, i.tier))])
  {
    Catalog.NameExactly(i.name);
  }

  /** The same for a tenant. */
  lemma {:induction false} BuildTenantExactly(i: NewInput, id: int, now: Time)
    requires i.CreateTenant?
    ensures var name, slug := Text.Trim(i.name), Text.Trim(i.slug);
            var planned := i.plan in {"free", "standard", "enterprise"};
            var b := Build(i, id, now);
            && (b == Err(InvalidTenantName) <==> !Tenants.CanonicalName(name))
            && (b == Err(InvalidSlug) <==> Tenants.CanonicalName(name) && !Tenants.CanonicalSlug(slug))
            && (b == Err(InvalidPlan) <==> Tenants.CanonicalName(name) && Tenants.CanonicalSlug(slug) && !planned)
            && (b == Err(InvalidQuota)
                <==> Tenants.CanonicalName(name) && Tenants.CanonicalSlug(slug) && planned && i.maxServices < 0)
            && (b.Ok? <==> Tenants.CanonicalName(name) && Tenants.CanonicalSlug(slug) && planned && i.maxServices >= 0)
            && (b.Ok? ==>
                  && ToRow(b.value) == TenantRow(id, name, slug, i.plan, "active", i.maxServices, 1, now, now)
                  && BirthEvents(b.value) == [Event(TenantId(id), now, TenantCreated(name, slug, i.plan))])
  {
    Tenants.NameExactly(i.name);
    Tenants.SlugExactly(i.slug);
  }
}
