/** The tenant aggregate: its value objects, rules and events. */
module TenantDomain {
  import opened Wrappers
  import opened Events
  import Text

  datatype Plan = Free | Standard | Enterprise

  function PlanText(p: Plan): string {
    match p
    case Free => "free"
    case Standard => "standard"
    case Enterprise => "enterprise"
  }

  function ParsePlan(s: string): (r: Result<Plan>)
    ensures forall p :: r == Ok(p) <==> s == PlanText(p)
  {
    if s == "free" then Ok(Free)
    else if s == "standard" then Ok(Standard)
    else if s == "enterprise" then Ok(Enterprise)
    else Err(InvalidPlan)
  }

  datatype Status = Active | Suspended | Archived

  function StatusText(s: Status): string {
    match s
    case Active => "active"
    case Suspended => "suspended"
    case Archived => "archived"
  }

  function ParseStatus(s: string): (r: Result<Status>)
    ensures forall st :: r == Ok(st) <==> s == StatusText(st)
  {
    if s == "active" then Ok(Active)
    else if s == "suspended" then Ok(Suspended)
    else if s == "archived" then Ok(Status.Archived)
    else Err(InvalidStatus)
  }

  predicate CanTransition(source: Status, target: Status) {
    match source
    case Active => target == Suspended || target == Status.Archived
    case Suspended => target == Active || target == Status.Archived
    case Archived => false
  }

  predicate CanonicalName(n: string) { Text.Trimmed(n) && 1 <= Text.ByteLen(n) <= 100 }

  predicate CanonicalSlug(s: string) { Text.IsLabel(s) && |s| <= 63 }

  function NewTenantName(s: string): (r: Result<string>)
  {
    var t := Text.Trim(s);
    if Text.ByteLen(t) < 1 || Text.ByteLen(t) > 100 then Err(InvalidTenantName) else Ok(t)
  }

  function NewSlug(s: string): (r: Result<string>)
  {
    var t := Text.Trim(s);
    if Text.ByteLen(t) < 1 || Text.ByteLen(t) > 63 || !Text.IsLabel(t) then Err(InvalidSlug) else Ok(t)
  }

  function NewQuota(maxServices: int): Result<int> {
    if maxServices < 0 then Err(InvalidQuota) else Ok(maxServices)
  }

  datatype Tenant = Tenant(
    id: int, name: string, slug: string, plan: Plan, status: Status, quota: int,
    version: int, createdAt: Time, updatedAt: Time)

  datatype Command = ChangeStatus(target: Status) | UpdateQuota(quota: int)

  predicate ValidCommand(c: Command) {
    c.UpdateQuota? ==> c.quota >= 0
  }

  predicate Valid(t: Tenant) {
    && CanonicalName(t.name)
    && CanonicalSlug(t.slug)
    && t.quota >= 0
    && t.version >= 1
  }

  function Touch(t: Tenant, now: Time): Tenant { t.(version := t.version + 1, updatedAt := now) }

  function Emit(t: Tenant, now: Time, b: Body): seq<Event> { [Event(TenantId(t.id), now, b)] }

  function NewTenant(id: int, name: string, slug: string, plan: Plan, quota: int, now: Time): Tenant {
    Tenant(id, name, slug, plan, Active, quota, 1, now, now)
  }

  function CreatedEvents(t: Tenant): seq<Event> {
    Emit(t, t.createdAt, TenantCreated(t.name, t.slug, PlanText(t.plan)))
  }

  function Decide(t: Tenant, c: Command, now: Time): (r: Result<(Tenant, seq<Event>)>)
    ensures r.Ok? ==>
      || r.value == (t, [])
      || (r.value.0.version == t.version + 1 && r.value.0.updatedAt == now && |r.value.1| == 1)
    ensures r.Ok? ==> (t.id, t.slug, t.createdAt) == (r.value.0.id, r.value.0.slug, r.value.0.createdAt)
    ensures r.Ok? && t.status == Status.Archived ==> r.value == (t, [])
  {
    match c
    case ChangeStatus(target) =>
      if t.status == target then Ok((t, []))
      else if !CanTransition(t.status, target) then Err(IllegalTransition)
      else Ok((Touch(t.(status := target), now),
               Emit(t, now, StatusChanged(StatusText(t.status), StatusText(target)))))
    case UpdateQuota(q) =>
      if t.status == Status.Archived then Err(Error.Archived)
      else Ok((Touch(t.(quota := q), now), Emit(t, now, QuotaUpdated(q))))
  }

  /** A change of status is accepted exactly when there is nothing to change, or the move is one of these four. */
  lemma {:induction false} StatusExactly(t: Tenant, target: Status, now: Time)
    ensures var legal := (t.status, target) in {
              (Active, Suspended), (Active, Status.Archived), (Suspended, Active), (Suspended, Status.Archived)};
            var r := Decide(t, Command.ChangeStatus(target), now);
            && (r.Ok? <==> target == t.status || legal)
            && (r.Err? ==> r.error == IllegalTransition)
            && (r.Ok? ==> r.value.0.status == target && r.value.0.quota == t.quota
                          && (target != t.status ==> r.value.0.version == t.version + 1))
  {
  }

  /** The quota of a tenant that is not archived is stored as asked, and announced. */
  lemma {:induction false} QuotaExactly(t: Tenant, q: int, now: Time)
    ensures var r := Decide(t, Command.UpdateQuota(q), now);
            && (r.Ok? <==> t.status != Status.Archived) && (r.Err? ==> r.error == Error.Archived)
            && (r.Ok? ==> r.value.0 == t.(quota := q, version := t.version + 1, updatedAt := now)
                          && r.value.1 == [Event(TenantId(t.id), now, QuotaUpdated(q))])
  {
  }

  lemma {:induction false} DecideKeepsValid(t: Tenant, c: Command, now: Time)
    requires Valid(t) && ValidCommand(c) && Decide(t, c, now).Ok?
    ensures Valid(Decide(t, c, now).value.0)
  {
  }

  lemma {:induction false} EventsAreAbout(t: Tenant, c: Command, now: Time)
    requires Decide(t, c, now).Ok?
    ensures var events := Decide(t, c, now).value.1;
            forall i | 0 <= i < |events| :: events[i].agg == TenantId(t.id) && events[i].at == now
  {
  }

  lemma {:induction false} NameFixed(n: string)
    ensures NewTenantName(n) == Ok(n) <==> CanonicalName(n)
  {
    Text.TrimFixes(n);
  }

  /** A name is trimmed first, and accepted exactly if 1 to 100 bytes are left. */
  lemma {:induction false} NameExactly(s: string)
    ensures NewTenantName(s) == if CanonicalName(Text.Trim(s)) then Ok(Text.Trim(s)) else Err(InvalidTenantName)
  {
    NameFixed(Text.Trim(s));
    Text.TrimFixes(s);
  }

  lemma {:induction false} SlugExactly(s: string)
    ensures NewSlug(s) == if CanonicalSlug(Text.Trim(s)) then Ok(Text.Trim(s)) else Err(InvalidSlug)
  {
    SlugFixed(Text.Trim(s));
    Text.TrimFixes(s);
  }

  lemma {:induction false} NameAccepted(s: string)
    requires NewTenantName(s).Ok?
    ensures CanonicalName(NewTenantName(s).value)
  {
    Text.TrimDrops(s);
  }

  lemma {:induction false} SlugAccepted(s: string)
    requires NewSlug(s).Ok?
    ensures CanonicalSlug(NewSlug(s).value)
  {
    Text.LabelByteLen(Text.Trim(s));
  }

  lemma {:induction false} SlugFixed(s: string)
    ensures NewSlug(s) == Ok(s) <==> CanonicalSlug(s)
  {
    Text.TrimFixes(s);
    if CanonicalSlug(s) {
      Text.LabelByteLen(s);
    }
  }

  function After(t: Tenant, recorded: seq<Event>, c: Command, now: Time): (Tenant, seq<Event>, Option<Error>) {
    match Decide(t, c, now)
    case Ok((t', emitted)) => (t', recorded + emitted, None)
    case Err(e) => (t, recorded, Some(e))
  }

  class TenantAggregate {
    var id: int
    var name: string
    var slug: string
    var plan: Plan
    var status: Status
    var quota: int
    var version: int
    var createdAt: Time
    var updatedAt: Time
    var events: seq<Event>

    function View(): Tenant
      reads this
    {
      Tenant(id, name, slug, plan, status, quota, version, createdAt, updatedAt)
    }

    constructor Reconstitute(t: Tenant)
      ensures View() == t && events == []
    {
      id, name, slug, plan, status := t.id, t.name, t.slug, t.plan, t.status;
      quota, version, createdAt, updatedAt, events := t.quota, t.version, t.createdAt, t.updatedAt, [];
    }

    constructor Create(id: int, name: string, slug: string, plan: Plan, quota: int, now: Time)
      ensures View() == NewTenant(id, name, slug, plan, quota, now)
      ensures events == CreatedEvents(View())
    {
      this.id, this.name, this.slug, this.plan, status := id, name, slug, plan, Active;
      this.quota, version, createdAt, updatedAt := quota, 1, now, now;
      events := [Event(TenantId(id), now, TenantCreated(name, slug, PlanText(plan)))];
    }

    method ChangeStatus(target: Status, now: Time) returns (err: Option<Error>)
      modifies this
      ensures (View(), events, err) == After(old(View()), old(events), Command.ChangeStatus(target), now)
      ensures err.None? <==>
                target == old(status)
                || (old(status), target) in {(Active, Suspended), (Active, Status.Archived),
                                             (Suspended, Active), (Suspended, Status.Archived)}
      ensures status == if err.None? then target else old(status)
    {
      StatusExactly(View(), target, now);
      if status == target {
        assert events + [] == events;
        return None;
      }
      if !CanTransition(status, target) { return Some(IllegalTransition); }
      var previous := status;
      status := target;
      version, updatedAt := version + 1, now;
      events := events + [Event(TenantId(id), now, StatusChanged(StatusText(previous), StatusText(target)))];
      return None;
    }

    method UpdateQuota(q: int, now: Time) returns (err: Option<Error>)
      modifies this
      ensures (View(), events, err) == After(old(View()), old(events), Command.UpdateQuota(q), now)
      ensures err.None? <==> status != Status.Archived
      ensures quota == if err.None? then q else old(quota)
    {
      if status == Status.Archived { return Some(Error.Archived); }
      quota := q;
      version, updatedAt := version + 1, now;
      events := events + [Event(TenantId(id), now, QuotaUpdated(q))];
      return None;
    }

    method PullEvents() returns (pulled: seq<Event>)
      modifies this`events
      ensures pulled == old(events) && events == []
    {
      pulled := events;
      events := [];
    }
  }
}
