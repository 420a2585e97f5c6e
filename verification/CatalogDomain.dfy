/** The service aggregate of the catalog: its value objects, rules and events. */
module CatalogDomain {
  import opened Wrappers
  import opened Events
  import Text

  datatype Lifecycle = Experimental | Production | Deprecated | Retired

  function LifecycleText(l: Lifecycle): string {
    match l
    case Experimental => "experimental"
    case Production => "production"
    case Deprecated => "deprecated"
    case Retired => "retired"
  }

  function ParseLifecycle(s: string): (r: Result<Lifecycle>)
    ensures forall l :: r == Ok(l) <==> s == LifecycleText(l)
  {
    if s == "experimental" then Ok(Experimental)
    else if s == "production" then Ok(Production)
    else if s == "deprecated" then Ok(Deprecated)
    else if s == "retired" then Ok(Retired)
    else Err(InvalidLifecycle)
  }

  predicate CanTransition(source: Lifecycle, target: Lifecycle) {
    match source
    case Experimental => target != Experimental
    case Production => target == Deprecated || target == Retired
    case Deprecated => target == Production || target == Retired
    case Retired => false
  }

  function NewServiceName(s: string): (r: Result<string>)
  {
    var t := Text.Trim(s);
    if Text.ByteLen(t) < 1 || Text.ByteLen(t) > 63 || !Text.IsLabel(t) then Err(InvalidServiceName) else Ok(t)
  }

  predicate CanonicalName(n: string) { Text.IsLabel(n) && |n| <= 63 }

  predicate CanonicalOwner(o: Ownership) { o.team != "" && Text.Trimmed(o.team) && Text.Trimmed(o.onCall) }

  function NewTier(t: int): Result<int> {
    if t < 1 || t > 4 then Err(InvalidTier) else Ok(t)
  }

  datatype Ownership = Ownership(team: string, onCall: string) {
    predicate HasOnCall() { onCall != "" }
  }

  function NewOwnership(team: string, onCall: string): (r: Result<Ownership>)
  {
    var t := Text.Trim(team);
    if t == "" then Err(InvalidOwnership) else Ok(Ownership(t, Text.Trim(onCall)))
  }

  datatype Service = Service(
    id: int, tenant: int, name: string, description: string, tier: int, lifecycle: Lifecycle,
    repository: string, owner: Ownership, version: int, createdAt: Time, updatedAt: Time)

  datatype Command = ChangeOwnership(owner: Ownership) | ChangeLifecycle(target: Lifecycle) | Retire

  /** A command as it leaves input validation: a new owner has been through NewOwnership. */
  predicate ValidCommand(c: Command) {
    c.ChangeOwnership? ==> CanonicalOwner(c.owner)
  }

  /** What every service built by this module satisfies. */
  predicate Valid(s: Service) {
    && CanonicalName(s.name)
    && 1 <= s.tier <= 4
    && CanonicalOwner(s.owner)
    && s.version >= 1
    && (s.lifecycle == Production ==> s.owner.HasOnCall())
  }

  function Touch(s: Service, now: Time): Service { s.(version := s.version + 1, updatedAt := now) }

  function Emit(s: Service, now: Time, b: Body): seq<Event> { [Event(ServiceId(s.id), now, b)] }

  function NewService(id: int, tenant: int, name: string, description: string, tier: int,
                    repository: string, owner: Ownership, now: Time): Service
  {
    Service(id, tenant, name, description, tier, Experimental, repository, owner, 1, now, now)
  }

  function RegisteredEvents(s: Service): seq<Event> {
    Emit(s, s.createdAt, ServiceRegistered(s.tenant, s.name, s.tier))
  }

  /** The new aggregate and the events one command produces, or the rule it breaks. */
  function Decide(s: Service, c: Command, now: Time): (r: Result<(Service, seq<Event>)>)
    ensures r.Ok? ==>
      || r.value == (s, [])
      || (r.value.0.version == s.version + 1 && r.value.0.updatedAt == now && |r.value.1| == 1)
    ensures r.Ok? ==> (s.id, s.tenant, s.name, s.createdAt)
                      == (r.value.0.id, r.value.0.tenant, r.value.0.name, r.value.0.createdAt)
    ensures r.Ok? && s.lifecycle == Retired ==> r.value == (s, [])
  {
    match c
    case ChangeOwnership(o) =>
      if s.lifecycle == Retired then Err(AlreadyRetired)
      else if s.lifecycle == Production && !o.HasOnCall() then Err(OnCallRequired)
      else Ok((Touch(s.(owner := o), now), Emit(s, now, OwnershipChanged(s.owner.team, o.team))))
    case ChangeLifecycle(target) =>
      if s.lifecycle == target then Ok((s, []))
      else if !CanTransition(s.lifecycle, target) then Err(IllegalTransition)
      else if target == Production && !s.owner.HasOnCall() then Err(OnCallRequired)
      else Ok((Touch(s.(lifecycle := target), now),
               Emit(s, now, LifecycleChanged(LifecycleText(s.lifecycle), LifecycleText(target)))))
    case Retire =>
      if s.lifecycle == Retired then Ok((s, []))
      else Ok((Touch(s.(lifecycle := Retired), now), Emit(s, now, Body.ServiceRetired)))
  }

  /**
   A change of lifecycle is accepted exactly when there is nothing to change, or the move is one of
   these seven and a service that goes to production has somebody on call.
   */
  lemma {:induction false} LifecycleExactly(s: Service, target: Lifecycle, now: Time)
    ensures var legal := (s.lifecycle, target) in {
              (Experimental, Production), (Experimental, Deprecated), (Experimental, Retired),
              (Production, Deprecated), (Production, Retired), (Deprecated, Production), (Deprecated, Retired)};
            && (Decide(s, Command.ChangeLifecycle(target), now).Ok?
                <==> target == s.lifecycle || (legal && (target == Production ==> s.owner.onCall != "")))
            && (Decide(s, Command.ChangeLifecycle(target), now) == Err(IllegalTransition) <==> target != s.lifecycle && !legal)
            && (Decide(s, Command.ChangeLifecycle(target), now) == Err(OnCallRequired)
                <==> legal && target == Production && s.owner.onCall == "")
    ensures var r := Decide(s, Command.ChangeLifecycle(target), now);
            r.Ok? ==> r.value.0.lifecycle == target && r.value.0.owner == s.owner
                      && (target != s.lifecycle ==> r.value.0.version == s.version + 1)
  {
  }

  /** An owner is accepted unless the service is retired, or in production and nobody would be on call. */
  lemma {:induction false} OwnershipChangeExactly(s: Service, o: Ownership, now: Time)
    ensures var r := Decide(s, Command.ChangeOwnership(o), now);
            && (r.Ok? <==> s.lifecycle != Retired && (s.lifecycle == Production ==> o.onCall != ""))
            && (r == Err(AlreadyRetired) <==> s.lifecycle == Retired)
            && (r.Ok? ==> r.value.0 == s.(owner := o, version := s.version + 1, updatedAt := now)
                          && r.value.1 == [Event(ServiceId(s.id), now, OwnershipChanged(s.owner.team, o.team))])
  {
  }

  /** Every service can be retired, with an event the first time only. */
  lemma {:induction false} RetireExactly(s: Service, now: Time)
    ensures var r := Decide(s, Command.Retire, now);
            && r.Ok? && r.value.0.lifecycle == Retired
            && (if s.lifecycle == Retired then r.value == (s, [])
                else r.value.0 == s.(lifecycle := Retired, version := s.version + 1, updatedAt := now)
                     && r.value.1 == [Event(ServiceId(s.id), now, Body.ServiceRetired)])
  {
  }

  lemma {:induction false} DecideKeepsValid(s: Service, c: Command, now: Time)
    requires Valid(s) && ValidCommand(c) && Decide(s, c, now).Ok?
    ensures Valid(Decide(s, c, now).value.0)
  {
  }

  lemma {:induction false} EventsAreAbout(s: Service, c: Command, now: Time)
    requires Decide(s, c, now).Ok?
    ensures var events := Decide(s, c, now).value.1;
            forall i | 0 <= i < |events| :: events[i].agg == ServiceId(s.id) && events[i].at == now
  {
  }

  /** A name is trimmed first, and accepted exactly if what is left is a label of at most 63 characters. */
  lemma {:induction false} NameExactly(s: string)
    ensures NewServiceName(s) == if CanonicalName(Text.Trim(s)) then Ok(Text.Trim(s)) else Err(InvalidServiceName)
  {
    NameFixed(Text.Trim(s));
    Text.TrimFixes(s);
  }

  /** Team and on-call reference are trimmed; a team is required. */
  lemma {:induction false} OwnershipExactly(team: string, onCall: string)
    ensures NewOwnership(team, onCall).Ok? <==> !Text.AllSpace(team)
    ensures !Text.AllSpace(team) ==> NewOwnership(team, onCall) == Ok(Ownership(Text.Trim(team), Text.Trim(onCall)))
    ensures Text.AllSpace(team) ==> NewOwnership(team, onCall) == Err(InvalidOwnership)
  {
    Text.TrimDrops(team);
    var pre, post :| team == pre + Text.Trim(team) + post && Text.AllSpace(pre) && Text.AllSpace(post);
    var t := Text.Trim(team);
    if t != "" {
      assert team[|pre|] == t[0];
    }
  }

  /** The value objects accept their own outputs, and nothing else, unchanged. */
  lemma {:induction false} NameFixed(n: string)
    ensures NewServiceName(n) == Ok(n) <==> CanonicalName(n)
  {
    Text.TrimFixes(n);
    if CanonicalName(n) {
      Text.LabelByteLen(n);
    }
  }

  lemma {:induction false} NameAccepted(s: string)
    requires NewServiceName(s).Ok?
    ensures CanonicalName(NewServiceName(s).value)
  {
    Text.LabelByteLen(Text.Trim(s));
  }

  lemma {:induction false} OwnershipAccepted(team: string, onCall: string)
    requires NewOwnership(team, onCall).Ok?
    ensures CanonicalOwner(NewOwnership(team, onCall).value)
  {
    Text.TrimDrops(team);
    Text.TrimDrops(onCall);
  }

  lemma {:induction false} OwnershipFixed(o: Ownership)
    ensures NewOwnership(o.team, o.onCall) == Ok(o) <==> CanonicalOwner(o)
  {
    Text.TrimFixes(o.team);
    Text.TrimFixes(o.onCall);
  }

  /** An aggregate, its recorded events, and what the caller is told. */
  function After(s: Service, recorded: seq<Event>, c: Command, now: Time): (Service, seq<Event>, Option<Error>) {
    match Decide(s, c, now)
    case Ok((s', emitted)) => (s', recorded + emitted, None)
    case Err(e) => (s, recorded, Some(e))
  }

  /** The aggregate as the domain layer holds it: fields changed in place, events recorded. */
  class ServiceAggregate {
    var id: int
    var tenant: int
    var name: string
    var description: string
    var tier: int
    var lifecycle: Lifecycle
    var repository: string
    var owner: Ownership
    var version: int
    var createdAt: Time
    var updatedAt: Time
    var events: seq<Event>

    function View(): Service
      reads this
    {
      Service(id, tenant, name, description, tier, lifecycle, repository, owner, version, createdAt, updatedAt)
    }

    constructor Reconstitute(s: Service)
      ensures View() == s && events == []
    {
      id, tenant, name, description, tier := s.id, s.tenant, s.name, s.description, s.tier;
      lifecycle, repository, owner, version := s.lifecycle, s.repository, s.owner, s.version;
      createdAt, updatedAt, events := s.createdAt, s.updatedAt, [];
    }

    constructor Register(id: int, tenant: int, name: string, description: string, tier: int,
                         repository: string, owner: Ownership, now: Time)
      ensures View() == NewService(id, tenant, name, description, tier, repository, owner, now)
      ensures events == RegisteredEvents(View())
    {
      this.id, this.tenant, this.name, this.description, this.tier := id, tenant, name, description, tier;
      lifecycle, this.repository, this.owner, version := Experimental, repository, owner, 1;
      createdAt, updatedAt := now, now;
      events := [Event(ServiceId(id), now, ServiceRegistered(tenant, name, tier))];
    }

    method ChangeOwnership(o: Ownership, now: Time) returns (err: Option<Error>)
      modifies this
      ensures (View(), events, err) == After(old(View()), old(events), Command.ChangeOwnership(o), now)
      ensures err.None? <==> lifecycle != Retired && (lifecycle == Production ==> o.onCall != "")
      ensures owner == if err.None? then o else old(owner)
    {
      if lifecycle == Retired { return Some(AlreadyRetired); }
      if lifecycle == Production && !o.HasOnCall() { return Some(OnCallRequired); }
      var previous := owner.team;
      owner := o;
      Touch(now);
      Record(OwnershipChanged(previous, o.team), now);
      return None;
    }

    method ChangeLifecycle(target: Lifecycle, now: Time) returns (err: Option<Error>)
      modifies this
      ensures (View(), events, err) == After(old(View()), old(events), Command.ChangeLifecycle(target), now)
      ensures err.None? <==>
                target == old(lifecycle)
                || ((old(lifecycle), target) in {(Experimental, Production), (Experimental, Deprecated), (Experimental, Retired),
                                                 (Production, Deprecated), (Production, Retired),
                                                 (Deprecated, Production), (Deprecated, Retired)}
                    && (target == Production ==> old(owner).onCall != ""))
      ensures lifecycle == if err.None? then target else old(lifecycle)
    {
      LifecycleExactly(View(), target, now);
      if lifecycle == target {
        assert events + [] == events;
        return None;
      }
      if !CanTransition(lifecycle, target) { return Some(IllegalTransition); }
      if target == Production && !owner.HasOnCall() { return Some(OnCallRequired); }
      var previous := lifecycle;
      lifecycle := target;
      Touch(now);
      Record(LifecycleChanged(LifecycleText(previous), LifecycleText(target)), now);
      return None;
    }

    method Retire(now: Time) returns (err: Option<Error>)
      modifies this
      ensures (View(), events, err) == After(old(View()), old(events), Command.Retire, now)
    {
      if lifecycle == Retired {
        assert events + [] == events;
        return None;
      }
      lifecycle := Retired;
      Touch(now);
      Record(Body.ServiceRetired, now);
      return None;
    }

    method Touch(now: Time)
      modifies this`version, this`updatedAt
      ensures version == old(version) + 1 && updatedAt == now
    {
      version := version + 1;
      updatedAt := now;
    }

    method Record(b: Body, now: Time)
      modifies this`events
      ensures events == old(events) + [Event(ServiceId(id), now, b)]
    {
      events := events + [Event(ServiceId(id), now, b)];
    }

    method PullEvents() returns (pulled: seq<Event>)
      modifies this`events
      ensures pulled == old(events) && events == []
    {
      pulled := events;
      events := [];
    }
  }
}
