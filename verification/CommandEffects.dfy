/**
 What the committed commands do to the rows, column by column and in the words of the tables: the
 moves between lifecycles and statuses, the owners and quotas stored, and the events sent out.
 */
module CommandEffects {
  import opened Wrappers
  import opened Events
  import opened Aggregates
  import opened CommandProtocol
  import opened CommandSafety
  import opened CommandLog
  import opened CommandRuns
  import I = CommandIdentity
  import Catalog = CatalogDomain
  import Tenants = TenantDomain

  /** The moves a service may make. */
  predicate ServiceMove(source: string, target: string) {
    (source, target) in {("experimental", "production"), ("experimental", "deprecated"), ("experimental", "retired"),
                         ("production", "deprecated"), ("production", "retired"),
                         ("deprecated", "production"), ("deprecated", "retired")}
  }

  predicate TenantMove(source: string, target: string) {
    (source, target) in {("active", "suspended"), ("active", "archived"), ("suspended", "active"), ("suspended", "archived")}
  }

  /** What a change of a service did to its columns and which event it sent. */
  ghost predicate ServiceEffect(base: Row, cmd: Catalog.Command, now: Time, row: Row, events: seq<Event>)
    requires base.ServiceRow? && row.ServiceRow?
  {
    match cmd
    case ChangeOwnership(o) =>
      && base.lifecycle != "retired" && (base.lifecycle == "production" ==> o.onCall != "")
      && row == base.(owningTeam := o.team, onCallRef := o.onCall, version := base.version + 1, updatedAt := now)
      && events == [Event(IdOf(base), now, OwnershipChanged(base.owningTeam, o.team))]
    case ChangeLifecycle(_) =>
      || (row == base && events == [])
      || (&& ServiceMove(base.lifecycle, row.lifecycle) && (row.lifecycle == "production" ==> base.onCallRef != "")
          && row == base.(lifecycle := row.lifecycle, version := base.version + 1, updatedAt := now)
          && events == [Event(IdOf(base), now, LifecycleChanged(base.lifecycle, row.lifecycle))])
    case Retire =>
      if base.lifecycle == "retired" then row == base && events == []
      else row == base.(lifecycle := "retired", version := base.version + 1, updatedAt := now) && events == [Event(IdOf(base), now, ServiceRetired)]
  }

  ghost predicate TenantEffect(base: Row, cmd: Tenants.Command, now: Time, row: Row, events: seq<Event>)
    requires base.TenantRow? && row.TenantRow?
  {
    match cmd
    case ChangeStatus(_) =>
      || (row == base && events == [])
      || (&& TenantMove(base.status, row.status) && row == base.(status := row.status, version := base.version + 1, updatedAt := now)
          && events == [Event(IdOf(base), now, StatusChanged(base.status, row.status))])
    case UpdateQuota(q) =>
      && base.status != "archived" && row == base.(maxServices := q, version := base.version + 1, updatedAt := now)
      && events == [Event(IdOf(base), now, QuotaUpdated(q))]
  }

  /** The lifecycle or status a command asks for, in the words of the tables. */
  ghost predicate Asked(cmd: Command, row: Row) {
    && (cmd == OnService(Catalog.ChangeLifecycle(Catalog.Experimental)) ==> row.ServiceRow? && row.lifecycle == "experimental")
    && (cmd == OnService(Catalog.ChangeLifecycle(Catalog.Production)) ==> row.ServiceRow? && row.lifecycle == "production")
    && (cmd == OnService(Catalog.ChangeLifecycle(Catalog.Deprecated)) ==> row.ServiceRow? && row.lifecycle == "deprecated")
    && (cmd == OnService(Catalog.ChangeLifecycle(Catalog.Retired)) ==> row.ServiceRow? && row.lifecycle == "retired")
    && (cmd == OnTenant(Tenants.ChangeStatus(Tenants.Active)) ==> row.TenantRow? && row.status == "active")
    && (cmd == OnTenant(Tenants.ChangeStatus(Tenants.Suspended)) ==> row.TenantRow? && row.status == "suspended")
    && (cmd == OnTenant(Tenants.ChangeStatus(Tenants.Status.Archived)) ==> row.TenantRow? && row.status == "archived")
  }

  ghost predicate Effect(base: Row, cmd: Command, now: Time, row: Row, events: seq<Event>) {
    && Asked(cmd, row)
    && match cmd
       case OnService(c) => base.ServiceRow? && row.ServiceRow? && ServiceEffect(base, c, now, row, events)
       case OnTenant(c) => base.TenantRow? && row.TenantRow? && TenantEffect(base, c, now, row, events)
  }

  lemma {:induction false} ServiceDecides(r: Row, c: Catalog.Command, now: Time)
    requires r.ServiceRow? && Stored(r) && Catalog.Decide(Scan(r).value.service, c, now).Ok?
    ensures var (s, events) := Catalog.Decide(Scan(r).value.service, c, now).value;
            Effect(r, OnService(c), now, ToRow(Svc(s)), events)
  {
    var s := Scan(r).value.service;
    assert ToRow(Svc(s)) == r;
    match c
    case ChangeOwnership(o) => Catalog.OwnershipChangeExactly(s, o, now);
    case ChangeLifecycle(target) => Catalog.LifecycleExactly(s, target, now);
    case Retire => Catalog.RetireExactly(s, now);
  }

  lemma {:induction false} TenantDecides(r: Row, c: Tenants.Command, now: Time)
    requires r.TenantRow? && Stored(r) && Tenants.Decide(Scan(r).value.tenant, c, now).Ok?
    ensures var (t, events) := Tenants.Decide(Scan(r).value.tenant, c, now).value;
            Effect(r, OnTenant(c), now, ToRow(Ten(t)), events)
  {
    var t := Scan(r).value.tenant;
    assert ToRow(Ten(t)) == r;
    match c
    case ChangeStatus(target) => Tenants.StatusExactly(t, target, now);
    case UpdateQuota(q) => Tenants.QuotaExactly(t, q, now);
  }

  lemma {:induction false} DecideEffect(r: Row, c: Command, now: Time)
    requires Stored(r) && (r.ServiceRow? <==> c.OnService?) && Decide(Scan(r).value, c, now).Ok?
    ensures var (a, events) := Decide(Scan(r).value, c, now).value; Effect(r, c, now, ToRow(a), events)
  {
    match c
    case OnService(sc) => ServiceDecides(r, sc, now);
    case OnTenant(tc) => TenantDecides(r, tc, now);
  }

  /** What the simple machine did at the k-th commit. */
  lemma {:induction false} SerialChange(log: seq<Commit>, k: nat)
    requires Serial(log).Some? && k < |log| && log[k].write.op.Change?
    ensures var w := log[k].write;
            w.base.Some? && Effect(w.base.value, w.op.cmd, w.op.now, w.row, w.events)
  {
    SerialPrefix(log, k + 1);
    assert log[..k + 1][..k] == log[..k];
    SerialTables(log[..k]);
    var tb, w := Serial(log[..k]).value, log[k].write;
    assert SerialStep(tb, w).Some?;
    assert RowFine(w.op.id, tb.rows[w.op.id]);
    DecideEffect(tb.rows[w.op.id], w.op.cmd, w.op.now);
  }

  /**
   Every committed change did to its row what its command says and no more: a move of the table of
   lifecycles or statuses, with somebody on call in production, or a new owner, or a new quota, one
   version on; and sent out the event that says so.
   */
  lemma {:induction false} CommittedEffects(db: Db, k: nat)
    requires Reachable(db) && k < |db.log| && db.log[k].write.op.Change?
    ensures var w := db.log[k].write;
            w.base.Some? && w.replaced == w.base && Effect(w.base.value, w.op.cmd, w.op.now, w.row, w.events)
  {
    ReachableInv(db);
    SerialChange(db.log, k);
    NoLostUpdateInLog(db.log, k);
  }

  /** The row and the event of a registration. */
  ghost predicate Registered(w: Write) {
    && w.row.version == 1 && w.row.updatedAt == w.row.createdAt && w.base == None && w.replaced == None
    && (w.row.ServiceRow? ==>
          && w.row.lifecycle == "experimental"
          && w.events == [Event(IdOf(w.row), w.row.createdAt, ServiceRegistered(w.row.tenantId, w.row.name, w.row.tier))])
    && (w.row.TenantRow? ==>
          && w.row.status == "active"
          && w.events == [Event(IdOf(w.row), w.row.createdAt, TenantCreated(w.row.name, w.row.slug, w.row.plan))])
  }

  lemma {:induction false} BirthRegisters(a: Aggregate)
    requires Newborn(a)
    ensures Registered(BirthWrite(a))
  {
  }

  lemma {:induction false} SerialCreate(tb: Tables, w: Write)
    requires w.op.Create? && SerialStep(tb, w).Some?
    ensures Newborn(w.op.agg) && w == BirthWrite(w.op.agg)
  {
  }

  lemma {:induction false} RegistrationRegisters(log: seq<Commit>, k: nat)
    requires k < |log| && Serial(log[..k + 1]).Some? && log[k].write.op.Create?
    ensures Registered(log[k].write)
  {
    assert log[..k + 1][..k] == log[..k];
    SerialCreate(Serial(log[..k]).value, log[k].write);
    BirthRegisters(log[k].write.op.agg);
  }

  /** Every committed registration is a first version, experimental or active, announced with its own columns. */
  lemma {:induction false} CommittedRegistrations(db: Db, k: nat)
    requires Reachable(db) && k < |db.log| && db.log[k].write.op.Create?
    ensures Registered(db.log[k].write)
  {
    ReachableInv(db);
    SerialPrefix(db.log, k + 1);
    RegistrationRegisters(db.log, k);
  }

  // --- Experimental is left once ---

  ghost predicate HasLeft(r: Row) { r.ServiceRow? && r.lifecycle != "experimental" }

  lemma {:induction false} EffectStaysLeft(base: Row, cmd: Command, now: Time, row: Row, events: seq<Event>)
    requires HasLeft(base) && Effect(base, cmd, now, row, events)
    ensures HasLeft(row)
  {
  }

  lemma {:induction false} WriteStaysLeft(rows: map<AggId, Row>, w: Write, id: AggId)
    requires RowsOk(rows) && WriteOk(rows, w) && id in rows && HasLeft(rows[id])
    ensures HasLeft(rows[IdOf(w.row) := w.row][id])
  {
    if w.op.Change? && w.op.id == id {
      assert RowOk(id, rows[id]);
      DecideEffect(rows[id], w.op.cmd, w.op.now);
      EffectStaysLeft(rows[id], w.op.cmd, w.op.now, w.row, w.events);
    } else {
      CommitRows(rows, w);
    }
  }

  lemma {:induction false} StepStaysLeft(db: Db, s: Step, id: AggId)
    requires Inv(db) && Enabled(db, s) && id in db.rows && HasLeft(db.rows[id])
    ensures id in Exec(db, s).rows && HasLeft(Exec(db, s).rows[id])
  {
    if s.CommitTx? {
      assert InOrder(db, db.txs[s.tx]);
      WriteStaysLeft(db.rows, db.txs[s.tx].write, id);
    } else {
      I.OnlyCommitsLeaveTraces(db, s);
    }
  }

  lemma {:induction false} RunStaysLeft(db: Db, steps: seq<Step>, id: AggId)
    requires Inv(db) && SafeRun(db, steps) && IsRun(db, steps) && id in db.rows && HasLeft(db.rows[id])
    ensures id in Run(db, steps).rows && HasLeft(Run(db, steps).rows[id])
    decreases |steps|
  {
    if steps != [] {
      StepStaysLeft(db, steps[0], id);
      StepKeepsInv(db, steps[0]);
      RunStaysLeft(Exec(db, steps[0]), steps[1..], id);
    }
  }

  /** A service that is no longer experimental never is again. */
  lemma {:induction false} ExperimentalIsLeftOnce(db: Db, db': Db, id: AggId)
    requires Reachable(db) && LeadsTo(db, db') && id in db.rows && db.rows[id].ServiceRow? && db.rows[id].lifecycle != "experimental"
    ensures id in db'.rows && db'.rows[id].ServiceRow? && db'.rows[id].lifecycle != "experimental"
  {
    ReachableInv(db);
    var steps :| ETagRun(db, steps) && IsRun(db, steps) && Run(db, steps) == db';
    ETagRunIsSafe(db, steps);
    RunStaysLeft(db, steps, id);
  }

  // --- Single statements ---

  /** The name check lets a registration go on exactly if no service of that tenant and name, or no tenant of that slug, is committed. */
  lemma {:induction false} NameCheckExactly(db: Db, t: TxId)
    requires Enabled(db, CheckName(t))
    ensures var a, db' := db.txs[t].agg, Exec(db, CheckName(t));
            && (t in db'.txs <==>
                  forall id | id in db.rows ::
                    var r := db.rows[id];
                    if a.Svc? then !(r.ServiceRow? && r.tenantId == a.service.tenant && r.name == a.service.name)
                    else !(r.TenantRow? && r.slug == a.tenant.slug))
            && (t in db'.txs ==> db'.txs[t] == Checked(db.txs[t].start, a))
  {
    var key := KeyOf(ToRow(db.txs[t].agg));
    if KeyTaken(db.rows, key) {
      var id :| id in db.rows && KeyOf(db.rows[id]) == key;
      assert db.rows[id].ServiceRow? <==> db.txs[t].agg.Svc?;
    }
  }

  /** Reading a row, or having a change of it acknowledged, hands out its version. */
  lemma {:induction false} VersionsHandedOut(db: Db, s: Step)
    requires Enabled(db, s)
    ensures db.etags <= Exec(db, s).etags
    ensures s.Get? ==> (s.id, db.rows[s.id].version) in Exec(db, s).etags
    ensures s.CommitTx? && s.acked ==>
              var row := db.txs[s.tx].write.row; (IdOf(row), row.version) in Exec(db, s).etags && Exec(db, s).rows[IdOf(row)] == row
  {
  }
}
