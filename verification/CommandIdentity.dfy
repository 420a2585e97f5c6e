/**
 What every interleaving of command transactions keeps, whatever If-Match numbers clients send.
 An update may overwrite a row it was not computed from, but it writes the columns of one valid
 aggregate and never the identifying ones: rows stay well formed, keep their identity and their
 unique key, and the events that leave with them name the aggregate they are about.
 */
module CommandIdentity {
  import opened Wrappers
  import opened Events
  import opened Aggregates
  import opened CommandProtocol
  import Catalog = CatalogDomain

  ghost predicate SameIdentity(r: Row, r': Row) {
    IdOf(r) == IdOf(r') && KeyOf(r) == KeyOf(r') && r.createdAt == r'.createdAt
  }

  ghost predicate RowFine(id: AggId, r: Row) { IdOf(r) == id && Stored(r) }

  ghost predicate RowsFine(rows: map<AggId, Row>) {
    && (forall id | id in rows :: RowFine(id, rows[id]))
    && (forall i, j | i in rows && j in rows && KeyOf(rows[i]) == KeyOf(rows[j]) :: i == j)
  }

  /** Events say which aggregate they are about. */
  ghost predicate About(events: seq<Event>, id: AggId) {
    forall i | 0 <= i < |events| :: events[i].agg == id
  }

  /** A pending write is a well-formed row: of a committed one, or of nobody's id and key. */
  ghost predicate WriteFine(rows: map<AggId, Row>, w: Write) {
    && Stored(w.row) && About(w.events, IdOf(w.row))
    && if w.op.Create? then IdOf(w.row) !in rows && !KeyTaken(rows, KeyOf(w.row))
       else IdOf(w.row) in rows && SameIdentity(w.row, rows[IdOf(w.row)])
  }

  /** What the aggregate of a change was read from: an earlier state of the same row. */
  ghost predicate BaseFine(rows: map<AggId, Row>, id: AggId, base: Row) {
    id in rows && RowFine(id, base) && SameIdentity(base, rows[id])
  }

  ghost predicate Carries(out: seq<OutboxRow>, events: seq<Event>) {
    |out| == |events| && forall i | 0 <= i < |out| :: out[i].event == events[i]
  }

  ghost predicate TxFine(rows: map<AggId, Row>, tx: Tx) {
    match tx
    case Begun(_, _, _, cmd) => ValidCommand(cmd)
    case Loaded(_, id, _, cmd, base) => ValidCommand(cmd) && BaseFine(rows, id, base)
    case Applied(_, id, _, _, _, _, agg, events) =>
      Valid(agg) && BaseFine(rows, id, ToRow(agg)) && About(events, id)
    case Creating(_, a) => FreshFine(a)
    case Checked(_, a) => FreshFine(a)
    case Wrote(_, w) => WriteFine(rows, w)
    case Recorded(_, w, _) => WriteFine(rows, w)
    case Ready(_, w, _, out) => WriteFine(rows, w) && Carries(out, w.events)
  }

  ghost predicate FreshFine(a: Aggregate) { Stored(ToRow(a)) && About(BirthEvents(a), IdOf(ToRow(a))) }

  /** Two live writes never concern one row, nor one unique key. */
  ghost predicate Exclusive(txs: map<TxId, Tx>) {
    forall t, u | t in txs && u in txs && t != u && txs[t].Writes() && txs[u].Writes() ::
      IdOf(txs[t].write.row) != IdOf(txs[u].write.row) && KeyOf(txs[t].write.row) != KeyOf(txs[u].write.row)
  }

  /** A commit wrote an earlier state of a row that is still there, and logged the events it sent out. */
  ghost predicate CommitFine(rows: map<AggId, Row>, c: Commit) {
    && IdOf(c.write.row) in rows && SameIdentity(c.write.row, rows[IdOf(c.write.row)])
    && About(c.write.events, IdOf(c.write.row)) && Carries(c.out, c.write.events)
  }

  /** No two registrations in the log share an id or a unique key. */
  ghost predicate RegisteredOnce(log: seq<Commit>) {
    forall i, j | 0 <= i < j < |log| && log[i].write.op.Create? && log[j].write.op.Create? ::
      IdOf(log[i].write.row) != IdOf(log[j].write.row) && KeyOf(log[i].write.row) != KeyOf(log[j].write.row)
  }

  ghost predicate Inv(db: Db) {
    && RowsFine(db.rows) && Exclusive(db.txs)
    && (forall t | t in db.txs :: TxFine(db.rows, db.txs[t]))
    && (forall k | 0 <= k < |db.log| :: CommitFine(db.rows, db.log[k]))
    && RegisteredOnce(db.log)
  }

  lemma {:induction false} EmptyInv()
    ensures Inv(EmptyDb)
  {
  }

  // --- Steps that leave the tables alone ---

  lemma {:induction false} BecomeKeeps(db: Db, t: TxId, tx: Tx)
    requires Inv(db) && TxFine(db.rows, tx)
    requires tx.Writes() ==> RowFree(db, t, IdOf(tx.write.row)) && KeyFree(db, t, KeyOf(tx.write.row))
    ensures Inv(Become(db, t, tx))
  {
  }

  lemma {:induction false} DropKeeps(db: Db, t: TxId)
    requires Inv(db)
    ensures Inv(Drop(db, t))
  {
    forall u | u in Drop(db, t).txs ensures TxFine(db.rows, Drop(db, t).txs[u]) {
      assert u in db.txs;
    }
  }

  lemma {:induction false} LoadKeeps(db: Db, t: TxId, tx: Tx)
    requires Inv(db) && tx.Begun? && TxFine(db.rows, tx)
    ensures Inv(ExecLoad(db, t, tx))
  {
    DropKeeps(db, t);
    if tx.id in db.rows && Scan(db.rows[tx.id]).Ok? {
      assert RowFine(tx.id, db.rows[tx.id]);
      BecomeKeeps(db, t, Loaded(tx.start, tx.id, tx.expected, tx.cmd, db.rows[tx.id]));
    }
  }

  /** Every accepted command yields a valid aggregate of the same identity, and events about it. */
  lemma {:induction false} DecideFine(base: Row, cmd: Command, now: Time)
    requires Stored(base) && ValidCommand(cmd) && base.ServiceRow? == cmd.OnService?
    requires Decide(Scan(base).value, cmd, now).Ok?
    ensures var (a, events) := Decide(Scan(base).value, cmd, now).value;
            Valid(a) && Stored(ToRow(a)) && SameIdentity(ToRow(a), base) && About(events, IdOf(base))
  {
    DecideAdvances(base, cmd, now);
    DecideValid(base, cmd, now);
  }

  lemma {:induction false} AppliedFine(rows: map<AggId, Row>, tx: Tx, now: Time)
    requires tx.Loaded? && TxFine(rows, tx) && tx.base.ServiceRow? == tx.cmd.OnService?
    requires Decide(Scan(tx.base).value, tx.cmd, now).Ok?
    ensures var (a, events) := Decide(Scan(tx.base).value, tx.cmd, now).value;
            TxFine(rows, Applied(tx.start, tx.id, tx.expected, tx.cmd, tx.base, now, a, events))
  {
    DecideFine(tx.base, tx.cmd, now);
  }

  /** Applying a command either rolls back or leaves what was decided on the row that was read. */
  lemma {:induction false} ApplyOutcome(db: Db, t: TxId, tx: Tx) returns (decided: Option<(Aggregate, seq<Event>)>)
    requires tx.Loaded?
    ensures decided.Some? ==>
              && Scan(tx.base).Ok? && tx.base.ServiceRow? == tx.cmd.OnService?
              && Decide(Scan(tx.base).value, tx.cmd, db.clock) == Ok(decided.value)
    ensures ExecApply(db, t, tx)
         == if decided.None? then Drop(db, t)
            else Become(db, t, Applied(tx.start, tx.id, tx.expected, tx.cmd, tx.base, db.clock, decided.value.0, decided.value.1))
  {
    decided := None;
    if Scan(tx.base).Ok? && tx.base.ServiceRow? == tx.cmd.OnService? {
      match Decide(Scan(tx.base).value, tx.cmd, db.clock)
      case Ok(d) => decided := Some(d);
      case Err(_) =>
    }
  }

  lemma {:induction false} ApplyKeeps(db: Db, t: TxId, tx: Tx)
    requires Inv(db) && tx.Loaded? && TxFine(db.rows, tx)
    ensures Inv(ExecApply(db, t, tx))
  {
    var decided := ApplyOutcome(db, t, tx);
    if decided.None? {
      DropKeeps(db, t);
    } else {
      AppliedFine(db.rows, tx, db.clock);
      BecomeKeeps(db, t, Applied(tx.start, tx.id, tx.expected, tx.cmd, tx.base, db.clock, decided.value.0, decided.value.1));
    }
  }

  /** The update leaves the identifying columns alone, and they are those of the aggregate. */
  lemma {:induction false} WriteBackIsRow(replaced: Row, a: Aggregate)
    requires replaced.ServiceRow? == a.Svc? && SameIdentity(ToRow(a), replaced)
    ensures WriteBack(replaced, a) == ToRow(a)
  {
  }

  /** Whoever holds a row's unique key holds the row. */
  lemma {:induction false} KeyFollowsRow(db: Db, t: TxId, r: Row)
    requires Inv(db) && IdOf(r) in db.rows && KeyOf(db.rows[IdOf(r)]) == KeyOf(r) && RowFree(db, t, IdOf(r))
    ensures KeyFree(db, t, KeyOf(r))
  {
    forall u | u in db.txs && u != t && db.txs[u].Writes() ensures KeyOf(db.txs[u].write.row) != KeyOf(r) {
      assert TxFine(db.rows, db.txs[u]);
      assert WriteFine(db.rows, db.txs[u].write);
    }
  }

  lemma {:induction false} UpdateKeeps(db: Db, t: TxId, tx: Tx)
    requires Inv(db) && tx.Applied? && TxFine(db.rows, tx) && RowFree(db, t, tx.id)
    ensures Inv(ExecUpdate(db, t, tx))
  {
    DropKeeps(db, t);
    if db.rows[tx.id].version == ExpectedVersionOr(tx.expected, tx.base.version) && db.rows[tx.id].ServiceRow? == tx.agg.Svc? {
      var found := db.rows[tx.id];
      WriteBackIsRow(found, tx.agg);
      KeyFollowsRow(db, t, ToRow(tx.agg));
      var w := Write(Change(tx.id, tx.cmd, tx.now), Some(tx.base), Some(found), ToRow(tx.agg), tx.events);
      assert WriteFine(db.rows, w);
      BecomeKeeps(db, t, Wrote(tx.start, w));
    }
  }

  lemma {:induction false} InsertKeeps(db: Db, t: TxId, tx: Tx)
    requires Inv(db) && tx.Checked? && TxFine(db.rows, tx)
    requires RowFree(db, t, IdOf(ToRow(tx.agg))) && KeyFree(db, t, KeyOf(ToRow(tx.agg)))
    ensures Inv(ExecInsert(db, t, tx))
  {
    DropKeeps(db, t);
    var row := ToRow(tx.agg);
    if IdOf(row) !in db.rows && !KeyTaken(db.rows, KeyOf(row)) {
      BecomeKeeps(db, t, Wrote(tx.start, BirthWrite(tx.agg)));
    }
  }

  lemma {:induction false} BeginCreateKeeps(db: Db, t: TxId, input: NewInput, newId: int, at: Time)
    requires Inv(db) && Build(input, newId, at).Ok?
    ensures Inv(Become(db, t, Creating(db.clock, Build(input, newId, at).value)))
  {
    BuildIsValid(input, newId, at);
    BecomeKeeps(db, t, Creating(db.clock, Build(input, newId, at).value));
  }

  /** A transaction that already holds a lock goes on holding the same one. */
  lemma {:induction false} HolderMovesOn(db: Db, t: TxId, tx: Tx)
    requires Inv(db) && t in db.txs && db.txs[t].Writes() && tx.Writes() && tx.write == db.txs[t].write
    requires tx.Ready? ==> Carries(tx.out, tx.write.events)
    ensures Inv(Become(db, t, tx))
  {
    assert TxFine(db.rows, db.txs[t]);
    BecomeKeeps(db, t, tx);
  }

  // --- Commit ---

  lemma {:induction false} CommitRows(rows: map<AggId, Row>, w: Write)
    requires RowsFine(rows) && WriteFine(rows, w)
    ensures RowsFine(rows[IdOf(w.row) := w.row])
  {
    var rows' := rows[IdOf(w.row) := w.row];
    forall i, j | i in rows' && j in rows' && KeyOf(rows'[i]) == KeyOf(rows'[j]) ensures i == j {
      if w.op.Create? {
        assert forall k | k in rows :: KeyOf(rows[k]) != KeyOf(w.row);
      }
    }
  }

  /** The identity of a committed row outlasts every commit. */
  lemma {:induction false} CommitKeepsIdentity(rows: map<AggId, Row>, w: Write, id: AggId)
    requires WriteFine(rows, w) && id in rows
    ensures id in rows[IdOf(w.row) := w.row] && SameIdentity(rows[id], rows[IdOf(w.row) := w.row][id])
  {
  }

  lemma {:induction false} CommitKeepsWriter(rows: map<AggId, Row>, w: Write, v: Write)
    requires WriteFine(rows, w) && WriteFine(rows, v) && IdOf(v.row) != IdOf(w.row) && KeyOf(v.row) != KeyOf(w.row)
    ensures WriteFine(rows[IdOf(w.row) := w.row], v)
  {
    var rows' := rows[IdOf(w.row) := w.row];
    if v.op.Create? {
      forall k | k in rows' ensures KeyOf(rows'[k]) != KeyOf(v.row) {
        assert k != IdOf(w.row) ==> k in rows;
      }
    }
  }

  lemma {:induction false} CommitKeepsTx(rows: map<AggId, Row>, w: Write, tx: Tx)
    requires WriteFine(rows, w) && TxFine(rows, tx)
    requires tx.Writes() ==> IdOf(tx.write.row) != IdOf(w.row) && KeyOf(tx.write.row) != KeyOf(w.row)
    ensures TxFine(rows[IdOf(w.row) := w.row], tx)
  {
    if tx.Writes() {
      CommitKeepsWriter(rows, w, tx.write);
    } else if tx.Loaded? || tx.Applied? {
      CommitKeepsIdentity(rows, w, tx.id);
    }
  }

  lemma {:induction false} CommitKeepsLog(rows: map<AggId, Row>, log: seq<Commit>, w: Write, c: Commit)
    requires WriteFine(rows, w) && c.write == w && Carries(c.out, w.events) && RegisteredOnce(log)
    requires forall k | 0 <= k < |log| :: CommitFine(rows, log[k])
    ensures forall k | 0 <= k < |log| + 1 :: CommitFine(rows[IdOf(w.row) := w.row], (log + [c])[k])
    ensures RegisteredOnce(log + [c])
  {
    forall k | 0 <= k < |log| ensures CommitFine(rows[IdOf(w.row) := w.row], log[k]) {
      CommitKeepsIdentity(rows, w, IdOf(log[k].write.row));
    }
    if w.op.Create? {
      forall k | 0 <= k < |log| ensures IdOf(log[k].write.row) != IdOf(w.row) && KeyOf(log[k].write.row) != KeyOf(w.row) {
        assert CommitFine(rows, log[k]);
      }
    }
  }

  lemma {:induction false} CommitKeeps(db: Db, t: TxId, tx: Tx, acked: bool)
    requires Inv(db) && t in db.txs && db.txs[t] == tx && tx.Ready?
    ensures Inv(ExecCommit(db, t, tx, acked))
  {
    assert TxFine(db.rows, tx);
    var w := tx.write;
    var db' := ExecCommit(db, t, tx, acked);
    CommitRows(db.rows, w);
    CommitKeepsLog(db.rows, db.log, w, Commit(t, w, tx.out));
    forall u | u in db'.txs ensures TxFine(db'.rows, db'.txs[u]) {
      assert u in db.txs && u != t;
      CommitKeepsTx(db.rows, w, db.txs[u]);
    }
  }

  // --- Every step, every run ---

  /** The statements of a transaction before it writes. */
  lemma {:induction false} ReadingKeeps(db: Db, s: Step)
    requires Inv(db) && Enabled(db, s) && (s.Load? || s.Apply? || s.CheckName? || s.BeginChange? || s.BeginCreate?)
    ensures Inv(Exec(db, s))
  {
    match s
    case BeginChange(t, id, expected, cmd) => BecomeKeeps(db, t, Begun(db.clock, id, expected, cmd));
    case BeginCreate(t, input, newId, at) => BeginCreateKeeps(db, t, input, newId, at);
    case Load(t) => LoadKeeps(db, t, db.txs[t]);
    case Apply(t) => ApplyKeeps(db, t, db.txs[t]);
    case CheckName(t) =>
      DropKeeps(db, t);
      assert TxFine(db.rows, db.txs[t]);
      BecomeKeeps(db, t, Checked(db.txs[t].start, db.txs[t].agg));
  }

  lemma {:induction false} StepKeepsInv(db: Db, s: Step)
    requires Inv(db) && Enabled(db, s)
    ensures Inv(Exec(db, s))
  {
    match s
    case Tick(to) =>
    case Get(id) =>
    case Update(t) => UpdateKeeps(db, t, db.txs[t]);
    case Insert(t) => InsertKeeps(db, t, db.txs[t]);
    case RecordOwnership(t) =>
      HolderMovesOn(db, t, Recorded(db.txs[t].start, db.txs[t].write, ViewOf(db.history, db.txs[t].write)));
    case Append(t, ids) =>
      var tx := db.txs[t];
      HolderMovesOn(db, t, Ready(tx.start, tx.write, tx.view, OutboxRows(tx.write.events, ids, tx.start)));
    case CommitTx(t, acked) => CommitKeeps(db, t, db.txs[t], acked);
    case Rollback(t) => DropKeeps(db, t);
    case _ => ReadingKeeps(db, s);
  }

  lemma {:induction false} RunKeepsInv(db: Db, steps: seq<Step>)
    requires Inv(db) && IsRun(db, steps)
    ensures Inv(Run(db, steps))
    decreases |steps|
  {
    if steps != [] {
      StepKeepsInv(db, steps[0]);
      RunKeepsInv(Exec(db, steps[0]), steps[1..]);
    }
  }

  // --- What later states keep ---

  /** Only a commit changes anything committed: a transaction that fails or loses leaves no trace. */
  lemma {:induction false} OnlyCommitsLeaveTraces(db: Db, s: Step)
    requires Enabled(db, s) && !s.CommitTx?
    ensures Exec(db, s).rows == db.rows && Exec(db, s).history == db.history && Exec(db, s).log == db.log
  {
  }

  /** Rows are never removed, and keep id, unique key and creation time. */
  lemma {:induction false} StepKeepsIdentity(db: Db, s: Step, id: AggId)
    requires Inv(db) && Enabled(db, s) && id in db.rows
    ensures id in Exec(db, s).rows && SameIdentity(db.rows[id], Exec(db, s).rows[id])
  {
    if s.CommitTx? {
      assert TxFine(db.rows, db.txs[s.tx]);
      CommitKeepsIdentity(db.rows, db.txs[s.tx].write, id);
    } else {
      OnlyCommitsLeaveTraces(db, s);
    }
  }

  lemma {:induction false} RunKeepsIdentity(db: Db, steps: seq<Step>, id: AggId)
    requires Inv(db) && IsRun(db, steps) && id in db.rows
    ensures id in Run(db, steps).rows && SameIdentity(db.rows[id], Run(db, steps).rows[id])
    decreases |steps|
  {
    if steps != [] {
      StepKeepsInv(db, steps[0]);
      StepKeepsIdentity(db, steps[0], id);
      RunKeepsIdentity(Exec(db, steps[0]), steps[1..], id);
    }
  }

  /** Reached by any run at all. */
  ghost predicate Reached(db: Db) { exists steps :: IsRun(EmptyDb, steps) && Run(EmptyDb, steps) == db }

  ghost predicate Later(db: Db, db': Db) { exists steps :: IsRun(db, steps) && Run(db, steps) == db' }

  lemma {:induction false} ReachedInv(db: Db)
    requires Reached(db)
    ensures Inv(db)
  {
    var steps :| IsRun(EmptyDb, steps) && Run(EmptyDb, steps) == db;
    EmptyInv();
    RunKeepsInv(EmptyDb, steps);
  }

  lemma {:induction false} LaterInv(db: Db, db': Db)
    requires Inv(db) && Later(db, db')
    ensures Inv(db')
  {
    var steps :| IsRun(db, steps) && Run(db, steps) == db';
    RunKeepsInv(db, steps);
  }

  lemma {:induction false} IdentityOutlasts(db: Db, db': Db, id: AggId)
    requires Inv(db) && Later(db, db') && id in db.rows
    ensures id in db'.rows && SameIdentity(db.rows[id], db'.rows[id])
  {
    var steps :| IsRun(db, steps) && Run(db, steps) == db';
    RunKeepsIdentity(db, steps, id);
  }

  // --- Theorems over every run ---

  /** Committed data always rehydrates, to an aggregate that writes back to the same row. */
  lemma {:induction false} NeverCorrupt(steps: seq<Step>, id: AggId)
    requires IsRun(EmptyDb, steps) && id in Run(EmptyDb, steps).rows
    ensures var row := Run(EmptyDb, steps).rows[id]; Scan(row).Ok? && ToRow(Scan(row).value) == row
  {
    EmptyInv();
    RunKeepsInv(EmptyDb, steps);
    assert RowFine(id, Run(EmptyDb, steps).rows[id]);
  }

  lemma {:induction false} ProductionRow(r: Row)
    requires Stored(r) && r.ServiceRow? && r.lifecycle == "production"
    ensures r.onCallRef != ""
  {
    assert Scan(r).value.service.lifecycle == Catalog.Production;
  }

  /** No service runs in production without somebody on call. */
  lemma {:induction false} ProductionHasOnCall(steps: seq<Step>, id: AggId)
    requires IsRun(EmptyDb, steps) && id in Run(EmptyDb, steps).rows && id.ServiceId?
    ensures var row := Run(EmptyDb, steps).rows[id];
            row.ServiceRow? && (row.lifecycle == "production" ==> row.onCallRef != "")
  {
    EmptyInv();
    RunKeepsInv(EmptyDb, steps);
    var row := Run(EmptyDb, steps).rows[id];
    assert RowFine(id, row);
    if row.lifecycle == "production" {
      ProductionRow(row);
    }
  }

  /** Names and slugs stay unique, however registrations race, and each key was registered once. */
  lemma {:induction false} KeysStayUnique(steps: seq<Step>)
    requires IsRun(EmptyDb, steps)
    ensures var rows := Run(EmptyDb, steps).rows;
            && (forall i, j | i in rows && j in rows && rows[i].ServiceRow? && rows[j].ServiceRow?
                              && rows[i].tenantId == rows[j].tenantId && rows[i].name == rows[j].name :: i == j)
            && (forall i, j | i in rows && j in rows && rows[i].TenantRow? && rows[j].TenantRow?
                              && rows[i].slug == rows[j].slug :: i == j)
    ensures RegisteredOnce(Run(EmptyDb, steps).log)
  {
    EmptyInv();
    RunKeepsInv(EmptyDb, steps);
  }

  lemma {:induction false} RegistrationsDistinct(steps: seq<Step>, i: nat, j: nat)
    requires IsRun(EmptyDb, steps) && i < j < |Run(EmptyDb, steps).log|
    requires var log := Run(EmptyDb, steps).log; log[i].write.op.Create? && log[j].write.op.Create?
    ensures var log := Run(EmptyDb, steps).log;
            KeyOf(log[i].write.row) != KeyOf(log[j].write.row) && IdOf(log[i].write.row) != IdOf(log[j].write.row)
  {
    KeysStayUnique(steps);
  }
}
