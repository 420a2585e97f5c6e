/** What a serial log implies: versions, final states, event replay and ownership history. */
module CommandLog {
  import opened Wrappers
  import opened Events
  import opened Aggregates
  import opened CommandProtocol
  import I = CommandIdentity
  import H = OwnershipHistory
  import Catalog = CatalogDomain
  import Tenants = TenantDomain

  ghost predicate RowFine(id: AggId, r: Row) {
    IdOf(r) == id && Stored(r) && r.version >= 1
  }

  ghost predicate TablesOk(tb: Tables) {
    && (forall id | id in tb.rows :: RowFine(id, tb.rows[id]))
    && (forall i, j | i in tb.rows && j in tb.rows && KeyOf(tb.rows[i]) == KeyOf(tb.rows[j]) :: i == j)
  }

  /** One serial step: a newborn row, or one row advanced by its command. */
  ghost predicate Stepped(tb: Tables, w: Write, tb': Tables) {
    && TablesOk(tb) && TablesOk(tb')
    && tb'.rows == tb.rows[IdOf(w.row) := w.row]
    && tb'.history == Install(tb.history, w.row, ViewOf(tb.history, w))
    && match w.op
       case Create(a) =>
         IdOf(w.row) !in tb.rows && w.row.version == 1 && w.row.createdAt == w.row.updatedAt
         && (forall id | id in tb.rows :: KeyOf(tb.rows[id]) != KeyOf(w.row))
       case Change(id, _, now) =>
         && IdOf(w.row) == id && id in tb.rows
         && w.base == w.replaced == Some(tb.rows[id])
         && Advances(tb.rows[id], w.row, w.events, now)
  }

  lemma {:induction false} CreateFacts(tb: Tables, w: Write)
    requires TablesOk(tb) && w.op.Create? && SerialStep(tb, w).Some?
    ensures Stepped(tb, w, SerialStep(tb, w).value)
  {
    RoundTrip(w.op.agg);
    assert RowFine(IdOf(w.row), w.row);
    assert forall k | k in tb.rows :: KeyOf(tb.rows[k]) != KeyOf(w.row);
  }

  lemma {:induction false} ChangeFacts(tb: Tables, w: Write)
    requires TablesOk(tb) && w.op.Change? && SerialStep(tb, w).Some?
    ensures Stepped(tb, w, SerialStep(tb, w).value)
  {
    var id := w.op.id;
    assert RowFine(id, tb.rows[id]);
    DecideAdvances(tb.rows[id], w.op.cmd, w.op.now);
    assert RowFine(id, w.row);
  }

  lemma {:induction false} SerialStepFacts(tb: Tables, w: Write)
    requires TablesOk(tb) && SerialStep(tb, w).Some?
    ensures Stepped(tb, w, SerialStep(tb, w).value)
  {
    if w.op.Create? {
      CreateFacts(tb, w);
    } else {
      ChangeFacts(tb, w);
    }
  }

  /** The last commit of a serial log, and the log before it. */
  lemma {:induction false} SerialLast(log: seq<Commit>)
    requires log != [] && Serial(log).Some?
    ensures Serial(log[..|log| - 1]).Some?
    ensures Stepped(Serial(log[..|log| - 1]).value, log[|log| - 1].write, Serial(log).value)
  {
    var tb, w := Serial(log[..|log| - 1]).value, log[|log| - 1].write;
    SerialTables(log[..|log| - 1]);
    SerialStepFacts(tb, w);
  }

  /** The tables just before the k-th commit. */
  ghost function Before(log: seq<Commit>, k: nat): Tables
    requires k <= |log| && Serial(log).Some?
  {
    SerialPrefix(log, k);
    Serial(log[..k]).value
  }

  lemma {:induction false} SerialPrefix(log: seq<Commit>, k: nat)
    requires k <= |log| && Serial(log).Some?
    ensures Serial(log[..k]).Some?
  {
    if k == |log| {
      assert log[..k] == log;
    } else {
      SerialPrefix(log[..|log| - 1], k);
      assert log[..|log| - 1][..k] == log[..k];
    }
  }

  lemma {:induction false} SerialTables(log: seq<Commit>)
    requires Serial(log).Some?
    ensures TablesOk(Serial(log).value)
  {
    if log != [] {
      SerialTables(log[..|log| - 1]);
      SerialStepFacts(Serial(log[..|log| - 1]).value, log[|log| - 1].write);
    }
  }

  lemma {:induction false} SerialAt(log: seq<Commit>, k: nat)
    requires k < |log| && Serial(log).Some?
    ensures Stepped(Before(log, k), log[k].write, Before(log, k + 1))
  {
    SerialPrefix(log, k + 1);
    assert log[..k + 1][..k] == log[..k];
    SerialLast(log[..k + 1]);
  }

  /** Each committed change replaced exactly the row it was computed from, and advanced it. */
  lemma {:induction false} NoLostUpdateInLog(log: seq<Commit>, k: nat)
    requires Serial(log).Some? && k < |log| && log[k].write.op.Change?
    ensures var w := log[k].write;
            && IdOf(w.row) in Before(log, k).rows
            && w.base == w.replaced == Some(Before(log, k).rows[IdOf(w.row)])
            && Advances(w.base.value, w.row, w.events, w.op.now)
  {
    SerialAt(log, k);
  }

  /** r' is what may become of r: never an older version, the same row at the same version or if final. */
  ghost predicate Grown(r: Row, r': Row) {
    && r.version <= r'.version && r.createdAt == r'.createdAt && IdOf(r) == IdOf(r') && KeyOf(r) == KeyOf(r')
    && (r.version == r'.version || Terminal(r) ==> r == r')
  }

  lemma {:induction false} StepGrows(tb: Tables, w: Write, tb': Tables, id: AggId)
    requires Stepped(tb, w, tb') && id in tb.rows
    ensures id in tb'.rows && Grown(tb.rows[id], tb'.rows[id])
  {
    assert RowFine(id, tb.rows[id]);
  }

  lemma {:induction false} CommittedRow(log: seq<Commit>, k: nat)
    requires Serial(log).Some? && k < |log|
    ensures var r := log[k].write.row; IdOf(r) in Before(log, k + 1).rows && Before(log, k + 1).rows[IdOf(r)] == r
  {
    SerialAt(log, k);
  }

  lemma {:induction false} GrownOn(r: Row, r': Row, r'': Row)
    requires Grown(r, r') && Grown(r', r'')
    ensures Grown(r, r'')
  {
  }

  lemma {:induction false} SerialGrows(log: seq<Commit>, k: nat, id: AggId)
    requires Serial(log).Some? && k < |log| && id in Before(log, k).rows
    ensures id in Before(log, k + 1).rows && Grown(Before(log, k).rows[id], Before(log, k + 1).rows[id])
  {
    SerialAt(log, k);
    StepGrows(Before(log, k), log[k].write, Before(log, k + 1), id);
  }

  /** Just before the k-th commit the row is there, and is what may have become of r. */
  ghost predicate HasGrown(log: seq<Commit>, k: nat, r: Row)
    requires Serial(log).Some? && k <= |log|
  {
    IdOf(r) in Before(log, k).rows && Grown(r, Before(log, k).rows[IdOf(r)])
  }

  lemma {:induction false} HasGrownOn(log: seq<Commit>, k: nat, r: Row)
    requires Serial(log).Some? && k < |log| && HasGrown(log, k, r)
    ensures HasGrown(log, k + 1, r)
  {
    SerialGrows(log, k, IdOf(r));
    GrownOn(r, Before(log, k).rows[IdOf(r)], Before(log, k + 1).rows[IdOf(r)]);
  }

  lemma {:induction false} HasGrownFirst(log: seq<Commit>, i: nat)
    requires Serial(log).Some? && i < |log|
    ensures HasGrown(log, i + 1, log[i].write.row)
  {
    CommittedRow(log, i);
  }

  /** From commit i on, the row is there and has only grown. */
  lemma {:induction false} RowOnwards(log: seq<Commit>, i: nat, k: nat)
    requires Serial(log).Some? && i < k <= |log|
    ensures HasGrown(log, k, log[i].write.row)
  {
    HasGrownFirst(log, i);
    GrownUpTo(log, i + 1, k, log[i].write.row);
  }

  lemma {:induction false} GrownUpTo(log: seq<Commit>, j: nat, k: nat, r: Row)
    requires Serial(log).Some? && j <= k <= |log| && HasGrown(log, j, r)
    ensures HasGrown(log, k, r)
    decreases k - j
  {
    if j < k {
      HasGrownOn(log, j, r);
      GrownUpTo(log, j + 1, k, r);
    }
  }

  /** Each aggregate and version was committed with a single content. */
  lemma {:induction false} OneContentPerVersion(log: seq<Commit>, i: nat, j: nat)
    requires Serial(log).Some? && i <= j < |log|
    requires IdOf(log[i].write.row) == IdOf(log[j].write.row)
    requires log[i].write.row.version == log[j].write.row.version
    ensures log[i].write.row == log[j].write.row
  {
    var r, r' := log[i].write.row, log[j].write.row;
    assert Grown(r, r') by {
      RowOnwards(log, i, j + 1);
      CommittedRow(log, j);
    }
  }

  // --- Event replay ---

  /** The events of the writes to one row, in commit order. */
  function EventsOf(log: seq<Commit>, id: AggId): seq<Event> {
    if log == [] then []
    else
      var c := log[|log| - 1];
      EventsOf(log[..|log| - 1], id) + (if IdOf(c.write.row) == id then c.write.events else [])
  }

  /** The outbox rows a log has inserted, in commit order. */
  function LogRows(log: seq<Commit>): seq<OutboxRow> {
    if log == [] then [] else LogRows(log[..|log| - 1]) + log[|log| - 1].out
  }

  /** The events that name an aggregate, as a consumer picks them out. */
  function Concerning(rows: seq<OutboxRow>, id: AggId): seq<Event> {
    if rows == [] then []
    else
      var e := rows[|rows| - 1].event;
      Concerning(rows[..|rows| - 1], id) + (if e.agg == id then [e] else [])
  }

  lemma {:induction false} ConcerningConcat(a: seq<OutboxRow>, b: seq<OutboxRow>, id: AggId)
    ensures Concerning(a + b, id) == Concerning(a, id) + Concerning(b, id)
    decreases |b|
  {
    if b == [] {
      assert a + b == a;
    } else {
      assert (a + b)[..|a + b| - 1] == a + b[..|b| - 1];
      ConcerningConcat(a, b[..|b| - 1], id);
    }
  }

  lemma {:induction false} ConcerningCommit(out: seq<OutboxRow>, events: seq<Event>, agg: AggId, id: AggId)
    requires I.Carries(out, events) && I.About(events, agg)
    ensures Concerning(out, id) == if agg == id then events else []
  {
    if out != [] {
      var n := |out| - 1;
      ConcerningCommit(out[..n], events[..n], agg, id);
      assert events == events[..n] + [events[n]];
    }
  }

  /** What a consumer picks out by aggregate is what was emitted by the writes to that row. */
  lemma {:induction false} ConcerningIsEventsOf(log: seq<Commit>, id: AggId)
    requires forall k | 0 <= k < |log| :: I.Carries(log[k].out, log[k].write.events) && I.About(log[k].write.events, IdOf(log[k].write.row))
    ensures Concerning(LogRows(log), id) == EventsOf(log, id)
  {
    if log != [] {
      var front, c := log[..|log| - 1], log[|log| - 1];
      ConcerningIsEventsOf(front, id);
      ConcerningConcat(LogRows(front), c.out, id);
      ConcerningCommit(c.out, c.write.events, IdOf(c.write.row), id);
    }
  }

  /** What a consumer can know of an aggregate from its events. */
  datatype Replayed = Nothing | Broken | OfService(lifecycle: string, team: string) | OfTenant(status: string)

  /** Strict: a birth event comes first, and every From and Previous is what was last reached. */
  function ReplayEvent(v: Replayed, firstTeam: string, b: Body): Replayed {
    match b
    case ServiceRegistered(_, _, _) => if v.Nothing? then OfService("experimental", firstTeam) else Broken
    case OwnershipChanged(previous, team) =>
      if v.OfService? && v.team == previous then v.(team := team) else Broken
    case LifecycleChanged(source, target) =>
      if v.OfService? && v.lifecycle == source then v.(lifecycle := target) else Broken
    case ServiceRetired => if v.OfService? && v.lifecycle != "retired" then v.(lifecycle := "retired") else Broken
    case TenantCreated(_, _, _) => if v.Nothing? then OfTenant("active") else Broken
    case StatusChanged(source, target) => if v.OfTenant? && v.status == source then OfTenant(target) else Broken
    case QuotaUpdated(_) => if v.OfTenant? then v else Broken
  }

  function Replay(events: seq<Event>, firstTeam: string): Replayed {
    if events == [] then Nothing
    else ReplayEvent(Replay(events[..|events| - 1], firstTeam), firstTeam, events[|events| - 1].body)
  }

  function Knows(r: Row): Replayed {
    if r.ServiceRow? then OfService(r.lifecycle, r.owningTeam) else OfTenant(r.status)
  }

  /** The owners written to one service row, in commit order. */
  function StampsOf(log: seq<Commit>, id: AggId): seq<H.Stamp> {
    if log == [] then []
    else
      var r := log[|log| - 1].write.row;
      StampsOf(log[..|log| - 1], id)
      + (if r.ServiceRow? && IdOf(r) == id then [H.Stamp(OwnerOf(r), r.updatedAt)] else [])
  }

  /** The owning team a service was registered with. */
  function FirstTeam(log: seq<Commit>, id: AggId): string {
    if StampsOf(log, id) == [] then "" else StampsOf(log, id)[0].owner.team
  }

  lemma {:induction false} ReplayAppend(events: seq<Event>, e: Event, firstTeam: string)
    ensures Replay(events + [e], firstTeam) == ReplayEvent(Replay(events, firstTeam), firstTeam, e.body)
  {
    assert (events + [e])[..|events|] == events;
  }

  lemma {:induction false} ServiceReplays(s: Catalog.Service, c: Catalog.Command, now: Time, firstTeam: string)
    requires Catalog.Decide(s, c, now).Ok?
    ensures var (s', events) := Catalog.Decide(s, c, now).value;
            if events == [] then s' == s
            else ReplayEvent(Knows(ToRow(Svc(s))), firstTeam, events[0].body) == Knows(ToRow(Svc(s')))
  {
  }

  lemma {:induction false} TenantReplays(t: Tenants.Tenant, c: Tenants.Command, now: Time, firstTeam: string)
    requires Tenants.Decide(t, c, now).Ok?
    ensures var (t', events) := Tenants.Decide(t, c, now).value;
            if events == [] then t' == t
            else ReplayEvent(Knows(ToRow(Ten(t))), firstTeam, events[0].body) == Knows(ToRow(Ten(t')))
  {
  }

  lemma {:induction false} BirthReplays(a: Aggregate, firstTeam: string)
    requires Newborn(a) && (a.Svc? ==> firstTeam == a.service.owner.team)
    ensures |BirthEvents(a)| == 1 && ReplayEvent(Nothing, firstTeam, BirthEvents(a)[0].body) == Knows(ToRow(a))
  {
  }

  /** One commit replays: what was known of the row before, and its events, give what is known after. */
  ghost predicate CommitReplays(tb: Tables, w: Write, firstTeam: string) {
    var known := if w.op.Create? || w.op.id !in tb.rows then Nothing else Knows(tb.rows[w.op.id]);
    if w.events == [] then w.op.Change? && known == Knows(w.row)
    else |w.events| == 1 && ReplayEvent(known, firstTeam, w.events[0].body) == Knows(w.row)
  }

  lemma {:induction false} StepReplays(tb: Tables, w: Write, firstTeam: string)
    requires TablesOk(tb) && SerialStep(tb, w).Some?
    requires w.op.Create? && w.row.ServiceRow? ==> firstTeam == w.row.owningTeam
    ensures CommitReplays(tb, w, firstTeam)
  {
    match w.op
    case Create(a) => BirthReplays(a, firstTeam);
    case Change(id, cmd, now) =>
      assert RowFine(id, tb.rows[id]);
      match cmd
      case OnService(c) => ServiceReplays(Scan(tb.rows[id]).value.service, c, now, firstTeam);
      case OnTenant(c) => TenantReplays(Scan(tb.rows[id]).value.tenant, c, now, firstTeam);
  }

  /** An aggregate's events number its version, and folding them in commit order gives its state. */
  ghost predicate Recounts(tb: Tables, events: seq<Event>, firstTeam: string, id: AggId) {
    if id in tb.rows then |events| == tb.rows[id].version && Replay(events, firstTeam) == Knows(tb.rows[id])
    else events == []
  }

  lemma {:induction false} RecountsStep(tb: Tables, w: Write, tb': Tables, events: seq<Event>, firstTeam: string)
    requires Stepped(tb, w, tb') && CommitReplays(tb, w, firstTeam) && Recounts(tb, events, firstTeam, IdOf(w.row))
    ensures Recounts(tb', events + w.events, firstTeam, IdOf(w.row))
  {
    ReplayOne(events, w.events, firstTeam);
  }

  lemma {:induction false} EventsReplayState(log: seq<Commit>, id: AggId)
    requires Serial(log).Some?
    ensures Recounts(Serial(log).value, EventsOf(log, id), FirstTeam(log, id), id)
  {
    if log != [] {
      var front, w := log[..|log| - 1], log[|log| - 1].write;
      var tb := Serial(front).value;
      SerialLast(log);
      EventsReplayState(front, id);
      assert Follows(tb, StampsOf(front, id), id) by { HistoryFollowsLog(front, id); }
      if id == IdOf(w.row) {
        assert id in tb.rows ==> FirstTeam(log, id) == FirstTeam(front, id);
        StepReplays(tb, w, FirstTeam(log, id));
        RecountsStep(tb, w, Serial(log).value, EventsOf(front, id), FirstTeam(log, id));
      } else {
        assert EventsOf(log, id) == EventsOf(front, id);
      }
    }
  }

  lemma {:induction false} ReplayOne(events: seq<Event>, more: seq<Event>, firstTeam: string)
    requires |more| <= 1
    ensures Replay(events + more, firstTeam)
         == if more == [] then Replay(events, firstTeam)
            else ReplayEvent(Replay(events, firstTeam), firstTeam, more[0].body)
  {
    if more == [] {
      assert events + more == events;
    } else {
      assert more == [more[0]];
      ReplayAppend(events, more[0], firstTeam);
    }
  }

  // --- Ownership ---

  ghost predicate Follows(tb: Tables, ws: seq<H.Stamp>, id: AggId) {
    if id in tb.rows && id.ServiceId? then
      && id in tb.history && ws != [] && tb.history[id] == H.HistoryOf(ws)
      && ws[0].at == tb.rows[id].createdAt && tb.rows[id].ServiceRow?
      && ws[|ws| - 1] == H.Stamp(OwnerOf(tb.rows[id]), tb.rows[id].updatedAt)
    else ws == []
  }

  lemma {:induction false} FollowsStep(tb: Tables, ws: seq<H.Stamp>, w: Write, tb': Tables)
    requires Stepped(tb, w, tb') && w.row.ServiceRow? && Follows(tb, ws, IdOf(w.row))
    ensures Follows(tb', ws + [H.Stamp(OwnerOf(w.row), w.row.updatedAt)], IdOf(w.row))
  {
    H.HistoryAppend(ws, H.Stamp(OwnerOf(w.row), w.row.updatedAt));
    var id := IdOf(w.row);
    assert id in tb'.history && tb'.history[id] == ViewOf(tb.history, w);
  }

  lemma {:induction false} FollowsElsewhere(tb: Tables, ws: seq<H.Stamp>, w: Write, tb': Tables, id: AggId)
    requires Stepped(tb, w, tb') && Follows(tb, ws, id) && (IdOf(w.row) != id || w.row.TenantRow?)
    ensures Follows(tb', ws, id)
  {
  }

  /** The stored history is the history of the committed writes, whatever the clocks read. */
  lemma {:induction false} HistoryFollowsLog(log: seq<Commit>, id: AggId)
    requires Serial(log).Some?
    ensures Follows(Serial(log).value, StampsOf(log, id), id)
  {
    if log != [] {
      var front, w := log[..|log| - 1], log[|log| - 1].write;
      SerialLast(log);
      HistoryFollowsLog(front, id);
      if IdOf(w.row) == id && w.row.ServiceRow? {
        FollowsStep(Serial(front).value, StampsOf(front, id), w, Serial(log).value);
      } else {
        assert StampsOf(log, id) == StampsOf(front, id);
        FollowsElsewhere(Serial(front).value, StampsOf(front, id), w, Serial(log).value, id);
      }
    }
  }
}
