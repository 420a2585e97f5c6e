/**
 Command transactions over the service and tenant tables, interleaved statement by statement
 under read-committed isolation.

 A transaction sees committed rows only. UPDATE takes the row lock, waits while another live
 transaction holds it, and tests the version against the row committed by then; INSERT waits
 in the same way on the primary key and on the unique constraint. Nothing a transaction wrote
 is visible before its commit, which installs everything at once.
 */
module CommandProtocol {
  import opened Wrappers
  import opened Events
  import opened Aggregates
  import H = OwnershipHistory
  import Tenants = TenantDomain

  type TxId = int

  /** What a transaction was asked to do, with the clock reading it used. */
  datatype Op = Create(agg: Aggregate) | Change(id: AggId, cmd: Command, now: Time)

  /**
   A row write held under the row lock. `base` is the row the new content was computed from,
   `replaced` the row the statement found; a fresh row has neither.
   */
  datatype Write = Write(op: Op, base: Option<Row>, replaced: Option<Row>, row: Row, events: seq<Event>)

  datatype Tx =
    | Begun(start: Time, id: AggId, expected: int, cmd: Command)
    | Loaded(start: Time, id: AggId, expected: int, cmd: Command, base: Row)
    | Applied(start: Time, id: AggId, expected: int, cmd: Command, base: Row, now: Time,
              agg: Aggregate, events: seq<Event>)
    | Creating(start: Time, agg: Aggregate)
    | Checked(start: Time, agg: Aggregate)
    | Wrote(start: Time, write: Write)
    | Recorded(start: Time, write: Write, view: seq<H.Interval>)
    | Ready(start: Time, write: Write, view: seq<H.Interval>, out: seq<OutboxRow>)
  {
    predicate Writes() { Wrote? || Recorded? || Ready? }
  }

  datatype Commit = Commit(tx: TxId, write: Write, out: seq<OutboxRow>)

  /**
   The committed tables and the live transactions. `clock` is the latest reading of any clock:
   of an application process when it stamps, of the database when a transaction starts. `log` and
   `etags` record, for the statements below, what has been committed so far and which versions were
   handed out.
   */
  datatype Db = Db(
    rows: map<AggId, Row>,
    history: map<AggId, seq<H.Interval>>,
    txs: map<TxId, Tx>,
    clock: Time,
    etags: set<(AggId, int)>,
    log: seq<Commit>)

  const EmptyDb := Db(map[], map[], map[], 0, {}, [])

  datatype Step =
    | Tick(to: Time)
    | Get(id: AggId)
    | BeginChange(tx: TxId, id: AggId, expected: int, cmd: Command)
    | BeginCreate(tx: TxId, input: NewInput, newId: int, at: Time)
    | Load(tx: TxId)
    | Apply(tx: TxId)
    | Update(tx: TxId)
    | CheckName(tx: TxId)
    | Insert(tx: TxId)
    | RecordOwnership(tx: TxId)
    | Append(tx: TxId, ids: seq<int>)
    | CommitTx(tx: TxId, acked: bool)
    | Rollback(tx: TxId)

  function ExpectedVersionOr(provided: int, current: int): int {
    if provided > 0 then provided else current
  }

  predicate KeyTaken(rows: map<AggId, Row>, k: UniqueKey) {
    exists id :: id in rows && KeyOf(rows[id]) == k
  }

  /** No other live transaction holds the lock on that row. */
  predicate RowFree(db: Db, t: TxId, id: AggId) {
    forall u | u in db.txs && u != t && db.txs[u].Writes() :: IdOf(db.txs[u].write.row) != id
  }

  predicate KeyFree(db: Db, t: TxId, k: UniqueKey) {
    forall u | u in db.txs && u != t && db.txs[u].Writes() :: KeyOf(db.txs[u].write.row) != k
  }

  function ViewOf(history: map<AggId, seq<H.Interval>>, w: Write): seq<H.Interval> {
    if w.row.TenantRow? then []
    else if w.op.Create? then H.First(OwnerOf(w.row), w.row.createdAt)
    else H.Record(if IdOf(w.row) in history then history[IdOf(w.row)] else [], OwnerOf(w.row), w.row.updatedAt)
  }

  function Install(history: map<AggId, seq<H.Interval>>, row: Row, view: seq<H.Interval>): map<AggId, seq<H.Interval>> {
    if row.ServiceRow? then history[IdOf(row) := view] else history
  }

  function OutboxRows(events: seq<Event>, ids: seq<int>, createdAt: Time): seq<OutboxRow>
    requires |ids| == |events|
  {
    seq(|events|, i requires 0 <= i < |events| => OutboxRow(ids[i], events[i], createdAt))
  }

  /** Clocks are set back and differ between processes, so a reading may be anything. */
  predicate Enabled(db: Db, s: Step) {
    match s
    case Tick(_) => true
    case Get(id) => id in db.rows
    case BeginChange(t, id, _, cmd) => t !in db.txs && ValidCommand(cmd) && Addresses(cmd, id)
    case BeginCreate(t, input, newId, at) => t !in db.txs && Build(input, newId, at).Ok?
    case Load(t) => t in db.txs && db.txs[t].Begun?
    case Apply(t) => t in db.txs && db.txs[t].Loaded?
    case Update(t) => t in db.txs && db.txs[t].Applied? && RowFree(db, t, db.txs[t].id)
    case CheckName(t) => t in db.txs && db.txs[t].Creating?
    case Insert(t) =>
      && t in db.txs && db.txs[t].Checked?
      && RowFree(db, t, IdOf(ToRow(db.txs[t].agg))) && KeyFree(db, t, KeyOf(ToRow(db.txs[t].agg)))
    case RecordOwnership(t) => t in db.txs && db.txs[t].Wrote?
    case Append(t, ids) => t in db.txs && db.txs[t].Recorded? && |ids| == |db.txs[t].write.events|
    case CommitTx(t, _) => t in db.txs && db.txs[t].Ready?
    case Rollback(t) => t in db.txs
  }

  function Drop(db: Db, t: TxId): Db { db.(txs := db.txs - {t}) }

  function Become(db: Db, t: TxId, tx: Tx): Db { db.(txs := db.txs[t := tx]) }

  /** A statement that fails rolls its transaction back. */
  function Exec(db: Db, s: Step): Db
    requires Enabled(db, s)
  {
    match s
    case Tick(to) => db.(clock := to)
    case Get(id) => db.(etags := db.etags + {(id, db.rows[id].version)})
    case BeginChange(t, id, expected, cmd) => Become(db, t, Begun(db.clock, id, expected, cmd))
    case BeginCreate(t, input, newId, at) => Become(db, t, Creating(db.clock, Build(input, newId, at).value))
    case Load(t) => ExecLoad(db, t, db.txs[t])
    case Apply(t) => ExecApply(db, t, db.txs[t])
    case Update(t) => ExecUpdate(db, t, db.txs[t])
    case CheckName(t) =>
      var tx := db.txs[t];
      if KeyTaken(db.rows, KeyOf(ToRow(tx.agg))) then Drop(db, t) else Become(db, t, Checked(tx.start, tx.agg))
    case Insert(t) => ExecInsert(db, t, db.txs[t])
    case RecordOwnership(t) =>
      var tx := db.txs[t];
      Become(db, t, Recorded(tx.start, tx.write, ViewOf(db.history, tx.write)))
    case Append(t, ids) =>
      var tx := db.txs[t];
      Become(db, t, Ready(tx.start, tx.write, tx.view, OutboxRows(tx.write.events, ids, tx.start)))
    case CommitTx(t, acked) => ExecCommit(db, t, db.txs[t], acked)
    case Rollback(t) => Drop(db, t)
  }

  function ExecLoad(db: Db, t: TxId, tx: Tx): Db
    requires tx.Begun?
  {
    if tx.id in db.rows && Scan(db.rows[tx.id]).Ok?
    then Become(db, t, Loaded(tx.start, tx.id, tx.expected, tx.cmd, db.rows[tx.id]))
    else Drop(db, t)
  }

  /** The aggregate is decided on with the clock as it reads now. */
  function ExecApply(db: Db, t: TxId, tx: Tx): Db
    requires tx.Loaded?
  {
    if Scan(tx.base).Err? || tx.base.ServiceRow? != tx.cmd.OnService? then Drop(db, t)
    else
      match Decide(Scan(tx.base).value, tx.cmd, db.clock)
      case Err(_) => Drop(db, t)
      case Ok((a, events)) =>
        Become(db, t, Applied(tx.start, tx.id, tx.expected, tx.cmd, tx.base, db.clock, a, events))
  }

  function ExecUpdate(db: Db, t: TxId, tx: Tx): Db
    requires tx.Applied?
  {
    if tx.id in db.rows && db.rows[tx.id].version == ExpectedVersionOr(tx.expected, tx.base.version)
       && db.rows[tx.id].ServiceRow? == tx.agg.Svc?
    then
      var found := db.rows[tx.id];
      Become(db, t, Wrote(tx.start, Write(Change(tx.id, tx.cmd, tx.now), Some(tx.base), Some(found),
                                          WriteBack(found, tx.agg), tx.events)))
    else Drop(db, t)
  }

  function BirthWrite(a: Aggregate): Write { Write(Create(a), None, None, ToRow(a), BirthEvents(a)) }

  function ExecInsert(db: Db, t: TxId, tx: Tx): Db
    requires tx.Checked?
  {
    var row := ToRow(tx.agg);
    if IdOf(row) in db.rows || KeyTaken(db.rows, KeyOf(row)) then Drop(db, t)
    else Become(db, t, Wrote(tx.start, BirthWrite(tx.agg)))
  }

  /** Everything the transaction wrote becomes visible together; the acknowledgement may be lost. */
  function ExecCommit(db: Db, t: TxId, tx: Tx, acked: bool): Db
    requires tx.Ready?
  {
    var w := tx.write;
    var id := IdOf(w.row);
    db.(rows := db.rows[id := w.row],
        history := Install(db.history, w.row, tx.view),
        txs := db.txs - {t},
        etags := if acked then db.etags + {(id, w.row.version)} else db.etags,
        log := db.log + [Commit(t, w, tx.out)])
  }

  /** A run is a sequence of steps, each enabled where it is taken. */
  predicate IsRun(db: Db, steps: seq<Step>)
    decreases |steps|
  {
    steps == [] || (Enabled(db, steps[0]) && IsRun(Exec(db, steps[0]), steps[1..]))
  }

  function Run(db: Db, steps: seq<Step>): Db
    requires IsRun(db, steps)
    decreases |steps|
  {
    if steps == [] then db else Run(Exec(db, steps[0]), steps[1..])
  }

  /** The If-Match hypothesis: a positive expected version was handed out for that aggregate. */
  predicate FromETag(db: Db, s: Step) {
    s.BeginChange? ==> s.expected <= 0 || (s.id, s.expected) in db.etags
  }

  /** A slug is left for another tenant: slugs are short, so a table can run out of them. */
  ghost predicate FreeSlug(rows: map<AggId, Row>, slug: string) {
    Tenants.CanonicalSlug(slug) && !KeyTaken(rows, SlugOnly(slug))
  }

  /** An aggregate that is not there can still be created under this id. */
  ghost predicate Creatable(rows: map<AggId, Row>, id: AggId) {
    id !in rows && (id.ServiceId? || exists slug :: FreeSlug(rows, slug))
  }

  /**
   The weaker condition the proofs use: not beyond the committed version, unless the row is final;
   and not beyond the first version of an aggregate that is yet to be created.
   */
  ghost predicate SafeExpectation(rows: map<AggId, Row>, id: AggId, expected: int) {
    expected <= 0
    || (if id in rows then expected <= rows[id].version || Terminal(rows[id]) else expected <= 1 || !Creatable(rows, id))
  }

  ghost predicate Safe(db: Db, s: Step) {
    s.BeginChange? ==> SafeExpectation(db.rows, s.id, s.expected)
  }

  predicate ETagRun(db: Db, steps: seq<Step>)
    decreases |steps|
  {
    steps == [] || (Enabled(db, steps[0]) && FromETag(db, steps[0]) && ETagRun(Exec(db, steps[0]), steps[1..]))
  }

  ghost predicate SafeRun(db: Db, steps: seq<Step>)
    decreases |steps|
  {
    steps == [] || (Enabled(db, steps[0]) && Safe(db, steps[0]) && SafeRun(Exec(db, steps[0]), steps[1..]))
  }

  // --- The simple machine: one command at a time ---

  datatype Tables = Tables(rows: map<AggId, Row>, history: map<AggId, seq<H.Interval>>)

  /**
   Re-executes one logged command alone. None when it would fail, when its input is not what
   validation lets through, or when the row it read or replaced, the row it wrote or the events
   it emitted differ from the log.
   */
  function SerialStep(tb: Tables, w: Write): Option<Tables> {
    match w.op
    case Create(a) =>
      var row := ToRow(a);
      if !Newborn(a) || IdOf(row) in tb.rows || KeyTaken(tb.rows, KeyOf(row)) || w != BirthWrite(a)
      then None
      else Some(Tables(tb.rows[IdOf(row) := row], Install(tb.history, row, ViewOf(tb.history, w))))
    case Change(id, cmd, now) =>
      if id !in tb.rows || !ValidCommand(cmd) || Scan(tb.rows[id]).Err? || tb.rows[id].ServiceRow? != cmd.OnService? then None
      else
        match Decide(Scan(tb.rows[id]).value, cmd, now)
        case Err(_) => None
        case Ok((a, events)) =>
          if w != Write(w.op, Some(tb.rows[id]), Some(tb.rows[id]), ToRow(a), events) then None
          else Some(Tables(tb.rows[id := w.row], Install(tb.history, w.row, ViewOf(tb.history, w))))
  }

  function Serial(log: seq<Commit>): Option<Tables> {
    if log == [] then Some(Tables(map[], map[]))
    else
      match Serial(log[..|log| - 1])
      case None => None
      case Some(tb) => SerialStep(tb, log[|log| - 1].write)
  }
}
