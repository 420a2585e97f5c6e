/**
 Ownership history over runs of command transactions. Its shape holds whatever the clocks read.
 Whether it tiles time depends on the readings; the condition is exact, and clocks that do not go
 back meet it.
 */
module OwnershipRuns {
  import opened Wrappers
  import opened Events
  import opened Aggregates
  import opened CommandProtocol
  import opened CommandSafety
  import opened CommandLog
  import opened CommandRuns
  import opened SoloSteps
  import E = Expectation
  import H = OwnershipHistory
  import I = CommandIdentity
  import Catalog = CatalogDomain

  // --- Whatever the clocks read ---

  /** The stored history of a service is that of its committed writes. */
  lemma {:induction false} HistoryOfRow(db: Db, id: AggId)
    requires Inv(db) && id in db.rows && id.ServiceId?
    ensures Follows(Tables(db.rows, db.history), StampsOf(db.log, id), id)
  {
    HistoryFollowsLog(db.log, id);
  }

  lemma {:induction false} ReachableHistory(db: Db, id: AggId)
    requires Reachable(db) && id in db.rows && id.ServiceId?
    ensures Follows(Tables(db.rows, db.history), StampsOf(db.log, id), id)
  {
    ReachableInv(db);
    HistoryOfRow(db, id);
  }

  /** One open interval, the row's owner; each interval begins where the one before ends, from creation on. */
  lemma {:induction false} OwnershipChained(db: Db, id: AggId)
    requires Reachable(db) && id in db.rows && id.ServiceId?
    ensures id in db.history && H.Chained(db.history[id]) && db.rows[id].ServiceRow?
    ensures var h := db.history[id]; h[0].start == db.rows[id].createdAt && h[|h| - 1].owner == OwnerOf(db.rows[id])
  {
    ReachableHistory(db, id);
    H.HistoryShape(StampsOf(db.log, id));
  }

  /** The committed writes to the row that changed its owner, the first included. */
  ghost function HandoversOf(db: Db, id: AggId): seq<H.Stamp> { H.Handovers(StampsOf(db.log, id)) }

  lemma {:induction false} TilesWhenInOrder(db: Db, id: AggId)
    requires Inv(db) && id in db.rows && id.ServiceId?
    ensures id in db.history && HandoversOf(db, id) != [] && HandoversOf(db, id)[0].at == db.rows[id].createdAt
    ensures H.Tiles(db.history[id], db.rows[id].createdAt) <==> H.InOrder(HandoversOf(db, id))
  {
    HistoryOfRow(db, id);
    H.HandoversFirst(StampsOf(db.log, id));
    H.TilesExactlyWhenInOrder(StampsOf(db.log, id));
  }

  /**
   Every instant from creation on lies in exactly one interval, and none before it, if and only if
   no committed hand-over is stamped before the one it follows. Then each instant belongs to the
   owner of the last hand-over by then.
   */
  lemma {:induction false} TilesExactly(db: Db, id: AggId)
    requires Reachable(db) && id in db.rows && id.ServiceId?
    ensures id in db.history && HandoversOf(db, id) != [] && HandoversOf(db, id)[0].at == db.rows[id].createdAt
    ensures H.Tiles(db.history[id], db.rows[id].createdAt) <==> H.InOrder(HandoversOf(db, id))
    ensures H.InOrder(HandoversOf(db, id)) ==>
              forall t | db.rows[id].createdAt <= t :: H.Resolves(db.history[id], HandoversOf(db, id), t)
  {
    ReachableInv(db);
    TilesWhenInOrder(db, id);
    var ws := StampsOf(db.log, id);
    HistoryOfRow(db, id);
    H.HistoryOfHandovers(ws);
    if H.InOrder(H.Handovers(ws)) {
      forall t | db.rows[id].createdAt <= t ensures H.Resolves(db.history[id], HandoversOf(db, id), t) {
        H.HistoryTilesTime(H.Handovers(ws), t);
      }
    }
  }

  // --- Clocks that do not go back ---

  /** A reading is no earlier than any reading before it; a registration's was taken before it began. */
  predicate Steady(db: Db, s: Step) {
    match s
    case Tick(to) => db.clock <= to
    case BeginCreate(_, _, _, at) => at <= db.clock
    case _ => true
  }

  ghost predicate SteadyRun(db: Db, steps: seq<Step>)
    decreases |steps|
  {
    steps == [] || (Enabled(db, steps[0]) && Steady(db, steps[0]) && SteadyRun(Exec(db, steps[0]), steps[1..]))
  }

  /** Reached by clients that send only versions they were given, under such clocks. */
  ghost predicate SteadilyReachable(db: Db) {
    exists steps :: ETagRun(EmptyDb, steps) && SteadyRun(EmptyDb, steps) && IsRun(EmptyDb, steps) && Run(EmptyDb, steps) == db
  }

  /** A change is stamped no earlier than the row it was computed from. */
  ghost predicate Rises(w: Write) {
    w.op.Change? ==> w.base.Some? && w.base.value.updatedAt <= w.row.updatedAt
  }

  ghost predicate TxStamped(clock: Time, tx: Tx) {
    match tx
    case Begun(_, _, _, _) => true
    case Loaded(_, _, _, _, base) => base.updatedAt <= clock
    case Applied(_, _, _, _, base, _, agg, _) => base.updatedAt <= ToRow(agg).updatedAt <= clock
    case Creating(_, a) => ToRow(a).updatedAt <= clock
    case Checked(_, a) => ToRow(a).updatedAt <= clock
    case _ => tx.write.row.updatedAt <= clock && Rises(tx.write)
  }

  ghost predicate Stamped(db: Db) {
    && (forall id | id in db.rows :: db.rows[id].updatedAt <= db.clock)
    && (forall t | t in db.txs :: TxStamped(db.clock, db.txs[t]))
    && (forall k | 0 <= k < |db.log| :: Rises(db.log[k].write))
  }

  lemma {:induction false} BecomeStamped(db: Db, t: TxId, tx: Tx)
    requires Stamped(db) && TxStamped(db.clock, tx)
    ensures Stamped(Become(db, t, tx))
  {
  }

  lemma {:induction false} DropStamped(db: Db, t: TxId)
    requires Stamped(db)
    ensures Stamped(Drop(db, t))
  {
  }

  /** A command leaves the aggregate alone or stamps it with the reading it was given. */
  lemma {:induction false} DecideStamps(base: Row, cmd: Command, now: Time)
    requires Scan(base).Ok? && base.ServiceRow? == cmd.OnService? && Decide(Scan(base).value, cmd, now).Ok?
    ensures ToRow(Decide(Scan(base).value, cmd, now).value.0).updatedAt in {base.updatedAt, now}
  {
  }

  lemma {:induction false} ApplyStamped(db: Db, t: TxId, tx: Tx)
    requires Stamped(db) && tx.Loaded? && TxStamped(db.clock, tx)
    ensures Stamped(ExecApply(db, t, tx))
  {
    var decided := I.ApplyOutcome(db, t, tx);
    if decided.None? {
      DropStamped(db, t);
    } else {
      DecideStamps(tx.base, tx.cmd, db.clock);
      BecomeStamped(db, t, Applied(tx.start, tx.id, tx.expected, tx.cmd, tx.base, db.clock, decided.value.0, decided.value.1));
    }
  }

  lemma {:induction false} UpdateStamped(db: Db, t: TxId, tx: Tx)
    requires Stamped(db) && tx.Applied? && TxStamped(db.clock, tx)
    ensures Stamped(ExecUpdate(db, t, tx))
  {
    DropStamped(db, t);
    if tx.id in db.rows && db.rows[tx.id].ServiceRow? == tx.agg.Svc? {
      var found := db.rows[tx.id];
      var w := Write(Change(tx.id, tx.cmd, tx.now), Some(tx.base), Some(found), WriteBack(found, tx.agg), tx.events);
      assert w.row.updatedAt == ToRow(tx.agg).updatedAt;
      BecomeStamped(db, t, Wrote(tx.start, w));
    }
  }

  lemma {:induction false} CommitStamped(db: Db, t: TxId, tx: Tx, acked: bool)
    requires Stamped(db) && t in db.txs && db.txs[t] == tx && tx.Ready?
    ensures Stamped(ExecCommit(db, t, tx, acked))
  {
    assert TxStamped(db.clock, tx);
  }

  lemma {:induction false} BeginStamped(db: Db, t: TxId, input: NewInput, newId: int, at: Time)
    requires Stamped(db) && at <= db.clock && Build(input, newId, at).Ok?
    ensures Stamped(Become(db, t, Creating(db.clock, Build(input, newId, at).value)))
  {
    BuildIsValid(input, newId, at);
    BecomeStamped(db, t, Creating(db.clock, Build(input, newId, at).value));
  }

  /** A transaction moves on with the aggregate or the write it has. */
  lemma {:induction false} MovesOnStamped(db: Db, s: Step)
    requires Stamped(db) && Enabled(db, s) && (s.Load? || s.CheckName? || s.Insert? || s.RecordOwnership? || s.Append? || s.Rollback?)
    ensures Stamped(Exec(db, s))
  {
    assert TxStamped(db.clock, db.txs[s.tx]);
    DropStamped(db, s.tx);
    if s.tx in Exec(db, s).txs {
      var tx := Exec(db, s).txs[s.tx];
      BecomeStamped(db, s.tx, tx);
    }
  }

  lemma {:induction false} StepKeepsStamps(db: Db, s: Step)
    requires Stamped(db) && Enabled(db, s) && Steady(db, s)
    ensures Stamped(Exec(db, s))
  {
    match s
    case Tick(to) =>
      forall t | t in db.txs ensures TxStamped(to, db.txs[t]) {
        assert TxStamped(db.clock, db.txs[t]);
      }
    case Get(_) =>
    case BeginChange(t, id, expected, cmd) => BecomeStamped(db, t, Begun(db.clock, id, expected, cmd));
    case BeginCreate(t, input, newId, at) => BeginStamped(db, t, input, newId, at);
    case Apply(t) => ApplyStamped(db, t, db.txs[t]);
    case Update(t) => UpdateStamped(db, t, db.txs[t]);
    case CommitTx(t, acked) => CommitStamped(db, t, db.txs[t], acked);
    case _ => MovesOnStamped(db, s);
  }

  lemma {:induction false} RunKeepsStamps(db: Db, steps: seq<Step>)
    requires Stamped(db) && IsRun(db, steps) && SteadyRun(db, steps)
    ensures Stamped(Run(db, steps))
    decreases |steps|
  {
    if steps != [] {
      StepKeepsStamps(db, steps[0]);
      RunKeepsStamps(Exec(db, steps[0]), steps[1..]);
    }
  }

  /** In a serial log whose changes rise, the writes to a row are stamped in commit order. */
  lemma {:induction false} StampsInOrder(log: seq<Commit>, id: AggId)
    requires Serial(log).Some? && forall k | 0 <= k < |log| :: Rises(log[k].write)
    ensures H.InOrder(StampsOf(log, id))
  {
    if log != [] {
      var front, w := log[..|log| - 1], log[|log| - 1].write;
      SerialLast(log);
      StampsInOrder(front, id);
      HistoryFollowsLog(front, id);
      if IdOf(w.row) == id && w.row.ServiceRow? {
        StampAppended(Serial(front).value, StampsOf(front, id), w, Serial(log).value);
      } else {
        assert StampsOf(log, id) == StampsOf(front, id);
      }
    }
  }

  lemma {:induction false} StampAppended(tb: Tables, ws: seq<H.Stamp>, w: Write, tb': Tables)
    requires Stepped(tb, w, tb') && w.row.ServiceRow? && Follows(tb, ws, IdOf(w.row)) && H.InOrder(ws) && Rises(w)
    ensures H.InOrder(ws + [H.Stamp(OwnerOf(w.row), w.row.updatedAt)])
  {
    H.HistoryAppend(ws, H.Stamp(OwnerOf(w.row), w.row.updatedAt));
  }

  lemma {:induction false} SteadyStamps(db: Db, id: AggId)
    requires SteadilyReachable(db)
    ensures Reachable(db) && H.InOrder(StampsOf(db.log, id))
  {
    var steps :| ETagRun(EmptyDb, steps) && SteadyRun(EmptyDb, steps) && IsRun(EmptyDb, steps) && Run(EmptyDb, steps) == db;
    assert Stamped(EmptyDb);
    RunKeepsStamps(EmptyDb, steps);
    ReachableInv(db);
    StampsInOrder(db.log, id);
  }

  /** With clocks that do not go back, every instant from creation on has one owner: the last one written by then. */
  lemma {:induction false} OwnershipTilesTime(db: Db, id: AggId)
    requires SteadilyReachable(db) && id in db.rows && id.ServiceId?
    ensures id in db.history && H.Tiles(db.history[id], db.rows[id].createdAt)
    ensures StampsOf(db.log, id) != [] && StampsOf(db.log, id)[0].at == db.rows[id].createdAt
    ensures forall t | db.rows[id].createdAt <= t :: H.Resolves(db.history[id], StampsOf(db.log, id), t)
  {
    SteadyStamps(db, id);
    ReachableInv(db);
    TilesWhenInOrder(db, id);
    HistoryOfRow(db, id);
    var ws := StampsOf(db.log, id);
    H.HandoversInOrder(ws);
    forall t | db.rows[id].createdAt <= t ensures H.Resolves(db.history[id], ws, t) {
      H.HistoryTilesTime(ws, t);
    }
  }

  // --- A clock that is set back ---

  /** What a change of owner writes, computed on the row as it is. */
  function HandoverWrite(r: Row, now: Time): Write
    requires r.ServiceRow? && Stored(r) && !Terminal(r)
  {
    E.AlwaysAccepted(r, now);
    var (a, events) := Decide(Scan(r).value, E.Always(IdOf(r)), now).value;
    Write(Change(IdOf(r), E.Always(IdOf(r)), now), Some(r), Some(r), ToRow(a), events)
  }

  lemma {:induction false} HandoverStamp(r: Row, now: Time)
    requires r.ServiceRow? && Stored(r) && !Terminal(r)
    ensures var w := HandoverWrite(r, now);
            && w.row.ServiceRow? && IdOf(w.row) == IdOf(r) && w.row.createdAt == r.createdAt
            && w.row.updatedAt == now && OwnerOf(w.row) == Catalog.Ownership("a", "b")
  {
    E.AlwaysAccepted(r, now);
  }

  /** From the row write to the commit, when nobody gets in the way. */
  lemma {:induction false} FinishAlone(db: Db, t: TxId, w: Write, ids: seq<int>)
    requires t !in db.txs && |ids| == |w.events|
    ensures E.Leads(Become(db, t, Wrote(db.clock, w)), Installed(db, t, w, ids))
  {
    var d1 := Become(db, t, Wrote(db.clock, w));
    var d2 := Become(db, t, Recorded(db.clock, w, ViewOf(db.history, w)));
    var d3 := Become(db, t, ReadyWith(db, w, ids));
    RecordAlone(db, t, w);
    E.Moves(d1, RecordOwnership(t));
    AppendAlone(db, t, w, ids);
    E.Moves(d2, Append(t, ids));
    E.LeadsOn(d1, d2, d3);
    CommitAlone(db, t, w, ids);
    E.Moves(d3, CommitTx(t, true));
    E.LeadsOn(d1, d3, Installed(db, t, w, ids));
  }

  function LoadedWith(db: Db, r: Row): Tx { Loaded(db.clock, IdOf(r), 0, E.Always(IdOf(r)), r) }

  function AppliedWith(db: Db, r: Row): Tx
    requires r.ServiceRow? && Stored(r) && !Terminal(r)
  {
    E.AlwaysAccepted(r, db.clock);
    var (a, events) := Decide(Scan(r).value, E.Always(IdOf(r)), db.clock).value;
    Applied(db.clock, IdOf(r), 0, E.Always(IdOf(r)), r, db.clock, a, events)
  }

  lemma {:induction false} ApplyAlone(db: Db, t: TxId, r: Row)
    requires r.ServiceRow? && Stored(r) && !Terminal(r)
    ensures E.Leads(Become(db, t, LoadedWith(db, r)), Become(db, t, AppliedWith(db, r)))
  {
    var d := Become(db, t, LoadedWith(db, r));
    var decided := I.ApplyOutcome(d, t, LoadedWith(db, r));
    E.AlwaysAccepted(r, db.clock);
    BecomeTwice(db, t, LoadedWith(db, r), AppliedWith(db, r));
    assert Exec(d, Step.Apply(t)) == Become(db, t, AppliedWith(db, r));
    E.Moves(d, Step.Apply(t));
  }

  lemma {:induction false} UpdateAlone(db: Db, t: TxId, r: Row)
    requires t !in db.txs && r.ServiceRow? && E.Open(db, IdOf(r)) && db.rows[IdOf(r)] == r
    ensures E.Leads(Become(db, t, AppliedWith(db, r)), Become(db, t, Wrote(db.clock, HandoverWrite(r, db.clock))))
  {
    var d := Become(db, t, AppliedWith(db, r));
    E.AlwaysAccepted(r, db.clock);
    BecomeTwice(db, t, AppliedWith(db, r), Wrote(db.clock, HandoverWrite(r, db.clock)));
    assert Exec(d, Update(t)) == Become(db, t, Wrote(db.clock, HandoverWrite(r, db.clock)));
    E.Moves(d, Update(t));
  }

  /** Somebody hands the service over, alone. */
  lemma {:induction false} HandOver(db: Db, t: TxId, r: Row) returns (ids: seq<int>)
    requires t !in db.txs && r.ServiceRow? && E.Open(db, IdOf(r)) && db.rows[IdOf(r)] == r
    ensures |ids| == |HandoverWrite(r, db.clock).events|
    ensures E.Leads(db, Installed(db, t, HandoverWrite(r, db.clock), ids))
  {
    var id := IdOf(r);
    var w := HandoverWrite(r, db.clock);
    ids := seq(|w.events|, i => i);
    var d1, d2 := Become(db, t, Begun(db.clock, id, 0, E.Always(id))), Become(db, t, LoadedWith(db, r));
    var d3, d4 := Become(db, t, AppliedWith(db, r)), Become(db, t, Wrote(db.clock, w));
    E.BeginOnce(db, t, id, 0);
    E.Moves(db, BeginChange(t, id, 0, E.Always(id)));
    E.LoadOnce(db, t, Begun(db.clock, id, 0, E.Always(id)));
    E.LeadsOn(db, d1, d2);
    ApplyAlone(db, t, r);
    E.LeadsOn(db, d2, d3);
    UpdateAlone(db, t, r);
    E.LeadsOn(db, d3, d4);
    FinishAlone(db, t, w, ids);
    E.LeadsOn(db, d4, Installed(db, t, w, ids));
  }

  lemma {:induction false} StampsAppend(log: seq<Commit>, c: Commit, id: AggId)
    requires c.write.row.ServiceRow? && IdOf(c.write.row) == id
    ensures StampsOf(log + [c], id) == StampsOf(log, id) + [H.Stamp(OwnerOf(c.write.row), c.write.row.updatedAt)]
  {
    assert (log + [c])[..|log|] == log;
  }

  /** One more hand-over, stamped before an earlier one, and the history no longer tiles time. */
  lemma {:induction false} BackwardsHandover(db: Db, t: TxId, r: Row, ids: seq<int>, k: nat)
    requires Inv(db) && r.ServiceRow? && E.Open(db, IdOf(r)) && db.rows[IdOf(r)] == r && OwnerOf(r) != Catalog.Ownership("a", "b")
    requires |ids| == |HandoverWrite(r, db.clock).events|
    requires k < |HandoversOf(db, IdOf(r))| && db.clock < HandoversOf(db, IdOf(r))[k].at
    requires Inv(Installed(db, t, HandoverWrite(r, db.clock), ids))
    ensures var db' := Installed(db, t, HandoverWrite(r, db.clock), ids);
            IdOf(r) in db'.rows && IdOf(r) in db'.history && !H.Tiles(db'.history[IdOf(r)], db'.rows[IdOf(r)].createdAt)
  {
    var id, w := IdOf(r), HandoverWrite(r, db.clock);
    var db' := Installed(db, t, w, ids);
    HandoverStamp(r, db.clock);
    HistoryOfRow(db, id);
    var ws, s := StampsOf(db.log, id), H.Stamp(Catalog.Ownership("a", "b"), db.clock);
    StampsAppend(db.log, Commit(t, w, OutboxRows(w.events, ids, db.clock)), id);
    H.HandoversAppend(ws, s);
    assert HandoversOf(db', id) == H.Handovers(ws) + [s];
    TilesWhenInOrder(db', id);
    var hs := HandoversOf(db', id);
    assert hs[k].at > hs[|hs| - 1].at;
  }

  /**
   A clock that is set back before an earlier hand-over breaks the tiling, in a run in which
   everybody behaves: the next change of owner leaves an instant with two owners, or with an
   owner before the service was there.
   */
  lemma {:induction false} SetBackBreaksTiling(db: Db, id: AggId, to: Time, k: nat) returns (db': Db)
    requires Inv(db) && id.ServiceId? && E.Open(db, id) && OwnerOf(db.rows[id]) != Catalog.Ownership("a", "b")
    requires k < |HandoversOf(db, id)| && to < HandoversOf(db, id)[k].at
    ensures E.Leads(db, db') && id in db'.rows && id in db'.history && !H.Tiles(db'.history[id], db'.rows[id].createdAt)
  {
    var late := db.(clock := to);
    E.Moves(db, Tick(to));
    var t := E.FreshTx(late);
    var ids := HandOver(late, t, db.rows[id]);
    db' := Installed(late, t, HandoverWrite(db.rows[id], to), ids);
    E.LeadsOn(db, late, db');
    StaysInv(db, late);
    StaysInv(db, db');
    BackwardsHandover(late, t, db.rows[id], ids, k);
  }

  lemma {:induction false} StaysInv(db: Db, db': Db)
    requires Inv(db) && E.Leads(db, db')
    ensures Inv(db')
  {
    var steps :| E.Goes(db, steps, db');
    E.GoesIsRun(db, steps, db');
    RunKeepsInv(db, steps);
  }

  lemma {:induction false} SomeService(at: Time) returns (input: NewInput, a: Aggregate)
    ensures Build(input, 1, at) == Ok(a)
    ensures var r := ToRow(a); IdOf(r) == ServiceId(1) && OwnerOf(r) == Catalog.Ownership("c", "b") && r.createdAt == at
  {
    input := RegisterService(1, "a", "", 1, "", "c", "b");
    Catalog.NameFixed("a");
    Catalog.OwnershipFixed(Catalog.Ownership("c", "b"));
    a := Build(input, 1, at).value;
  }

  /** A service is registered at that time, and nothing else has happened. */
  lemma {:induction false} ServiceAt(at: Time) returns (db: Db)
    ensures E.Leads(EmptyDb, db) && E.Open(db, ServiceId(1)) && db.rows[ServiceId(1)].createdAt == at
    ensures OwnerOf(db.rows[ServiceId(1)]) != Catalog.Ownership("a", "b")
  {
    var early := EmptyDb.(clock := at);
    E.Moves(EmptyDb, Tick(at));
    var input, a := SomeService(at);
    E.NewbornOpen(a, input, 1, at);
    db := E.CreateOnce(early, 1, input, 1, a);
    E.LeadsOn(EmptyDb, early, db);
  }

  /** It happens: registered at 10, handed over at 5. */
  lemma {:induction false} TilingCanBreak() returns (steps: seq<Step>)
    ensures ETagRun(EmptyDb, steps) && IsRun(EmptyDb, steps)
    ensures var db := Run(EmptyDb, steps);
            ServiceId(1) in db.rows && ServiceId(1) in db.history
            && !H.Tiles(db.history[ServiceId(1)], db.rows[ServiceId(1)].createdAt)
  {
    var there := ServiceAt(10);
    EmptyInv();
    StaysInv(EmptyDb, there);
    TilesWhenInOrder(there, ServiceId(1));
    var last := SetBackBreaksTiling(there, ServiceId(1), 5, 0);
    E.LeadsOn(EmptyDb, there, last);
    steps :| E.Goes(EmptyDb, steps, last);
    E.GoesIsRun(EmptyDb, steps, last);
  }
}
