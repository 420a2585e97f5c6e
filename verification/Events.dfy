/** Aggregate identities, the domain events both bounded contexts emit, and the outbox rows that carry them. */
module Events {

  type Time = int

  datatype AggId = ServiceId(n: int) | TenantId(n: int)

  datatype Body =
    | ServiceRegistered(tenant: int, name: string, tier: int)
    | OwnershipChanged(previousTeam: string, newTeam: string)
    | LifecycleChanged(fromLifecycle: string, toLifecycle: string)
    | ServiceRetired
    | TenantCreated(tenantName: string, slug: string, plan: string)
    | StatusChanged(fromStatus: string, toStatus: string)
    | QuotaUpdated(maxServices: int)

  datatype Event = Event(agg: AggId, at: Time, body: Body)

  datatype OutboxRow = OutboxRow(id: int, event: Event, createdAt: Time)

  function EventType(b: Body): string {
    match b
    case ServiceRegistered(_, _, _) => "catalog.service.registered"
    case OwnershipChanged(_, _) => "catalog.service.ownership_changed"
    case LifecycleChanged(_, _) => "catalog.service.lifecycle_changed"
    case ServiceRetired => "catalog.service.retired"
    case TenantCreated(_, _, _) => "tenant.created"
    case StatusChanged(_, _) => "tenant.status_changed"
    case QuotaUpdated(_) => "tenant.quota_updated"
  }
}
