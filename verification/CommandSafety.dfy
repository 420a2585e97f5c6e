/**
 Every interleaving of command transactions commits a serial history: re-running the logged
 commands one at a time, each alone, gives exactly the committed tables, rows and events.
 */
module CommandSafety {
  import opened Wrappers
  import opened Events
  import opened Aggregates
  import opened CommandProtocol
  import I = CommandIdentity
  import H = OwnershipHistory

  // --- The invariant ---

  ghost predicate RowOk(id: AggId, r: Row) {
    IdOf(r) == id && Stored(r) && r.version >= 1
  }

  ghost predicate RowsOk(rows: map<AggId, Row>) { forall id | id in rows :: RowOk(id, rows[id]) }

  /** A row read earlier: at its version the content is still the same, and a final row is current. */
  ghost predicate BaseOk(rows: map<AggId, Row>, id: AggId, base: Row) {
    && id in rows
    && RowOk(id, base)
    && base.version <= rows[id].version
    && (base.version == rows[id].version || Terminal(base) ==> base == rows[id])
  }

  ghost predicate ExpectationOk(expected: int, base: Row) { expected <= base.version || Terminal(base) }

  /** A pending write was decided on exactly the committed row, or creates a row nobody has. */
  ghost predicate WriteOk(rows: map<AggId, Row>, w: Write) {
    match w.op
    case Create(a) =>
      && w == BirthWrite(a)
      && IdOf(w.row) !in rows && !KeyTaken(rows, KeyOf(w.row))
      && Newborn(a) && RowOk(IdOf(w.row), w.row)
    case Change(id, cmd, now) =>
      && ValidCommand(cmd) && id in rows && w.base == w.replaced == Some(rows[id])
      && (rows[id].ServiceRow? <==> cmd.OnService?)
      && Scan(rows[id]).Ok?
      && Decide(Scan(rows[id]).value, cmd, now).Ok?
      && (var (a, events) := Decide(Scan(rows[id]).value, cmd, now).value; w.row == ToRow(a) && w.events == events)
      && Advances(rows[id], w.row, w.events, now)
  }

  ghost predicate TxOk(rows: map<AggId, Row>, history: map<AggId, seq<H.Interval>>, tx: Tx) {
    match tx
    case Begun(_, id, expected, cmd) =>
      ValidCommand(cmd) && Addresses(cmd, id) && SafeExpectation(rows, id, expected)
    case Loaded(_, id, expected, cmd, base) =>
      && ValidCommand(cmd) && Addresses(cmd, id)
      && BaseOk(rows, id, base) && ExpectationOk(expected, base)
    case Applied(_, id, expected, cmd, base, now, agg, events) =>
      && ValidCommand(cmd) && Addresses(cmd, id)
      && BaseOk(rows, id, base) && ExpectationOk(expected, base)
      && (base.ServiceRow? <==> cmd.OnService?)
      && Scan(base).Ok? && Decide(Scan(base).value, cmd, now) == Ok((agg, events))
    case Creating(_, a) => FreshOk(a)
    case Checked(_, a) => FreshOk(a)
    case Wrote(_, w) => WriteOk(rows, w)
    case Recorded(_, w, view) => WriteOk(rows, w) && view == ViewOf(history, w)
    case Ready(start, w, view, out) =>
      && WriteOk(rows, w) && view == ViewOf(history, w)
      && |out| == |w.events|
      && forall i | 0 <= i < |out| :: out[i].event == w.events[i] && out[i].createdAt == start
  }

  ghost predicate InOrder(db: Db, tx: Tx) { TxOk(db.rows, db.history, tx) }

  ghost predicate FreshOk(a: Aggregate) { Newborn(a) && RowOk(IdOf(ToRow(a)), ToRow(a)) }

  ghost predicate ETagsOk(db: Db) {
    forall e | e in db.etags :: e.0 in db.rows && e.1 <= db.rows[e.0].version
  }

  /** Transactions work on what is committed, and the committed tables are those of the serial log. */
  ghost predicate Current(db: Db) {
    && RowsOk(db.rows)
    && (forall t | t in db.txs :: InOrder(db, db.txs[t]))
    && ETagsOk(db)
    && Serial(db.log) == Some(Tables(db.rows, db.history))
  }

  ghost predicate Inv(db: Db) { I.Inv(db) && Current(db) }

  lemma {:induction false} EmptyInv()
    ensures Inv(EmptyDb)
  {
    I.EmptyInv();
  }

  // --- Steps that leave the tables alone ---

  /** Replacing one transaction by one that is in order. */
  lemma {:induction false} BecomeKeeps(db: Db, t: TxId, tx: Tx)
    requires Current(db) && InOrder(db, tx)
    ensures Current(Become(db, t, tx))
  {
    var db' := Become(db, t, tx);
    forall u | u in db'.txs ensures InOrder(db', db'.txs[u]) {
    }
  }

  lemma {:induction false} DropKeeps(db: Db, t: TxId)
    requires Current(db)
    ensures Current(Drop(db, t))
  {
    forall u | u in Drop(db, t).txs ensures InOrder(Drop(db, t), Drop(db, t).txs[u]) {
      assert u in db.txs;
    }
  }

  lemma {:induction false} LoadKeeps(db: Db, t: TxId, tx: Tx)
    requires tx.Begun? && InOrder(db, tx) && Current(db)
    ensures Current(ExecLoad(db, t, tx))
  {
    DropKeeps(db, t);
    if tx.id in db.rows && Scan(db.rows[tx.id]).Ok? {
      var tx' := Loaded(tx.start, tx.id, tx.expected, tx.cmd, db.rows[tx.id]);
      assert RowOk(tx.id, db.rows[tx.id]);
      assert InOrder(db, tx');
      BecomeKeeps(db, t, tx');
    }
  }

  lemma {:induction false} AppliedInOrder(rows: map<AggId, Row>, history: map<AggId, seq<H.Interval>>, tx: Tx, now: Time)
    requires tx.Loaded? && TxOk(rows, history, tx) && Scan(tx.base).Ok? && tx.base.ServiceRow? == tx.cmd.OnService?
    requires Decide(Scan(tx.base).value, tx.cmd, now).Ok?
    ensures var (a, events) := Decide(Scan(tx.base).value, tx.cmd, now).value;
            TxOk(rows, history, Applied(tx.start, tx.id, tx.expected, tx.cmd, tx.base, now, a, events))
  {
  }

  lemma {:induction false} ApplyKeeps(db: Db, t: TxId, tx: Tx)
    requires tx.Loaded? && InOrder(db, tx) && Current(db)
    ensures Current(ExecApply(db, t, tx))
  {
    var decided := I.ApplyOutcome(db, t, tx);
    if decided.None? {
      DropKeeps(db, t);
    } else {
      AppliedInOrder(db.rows, db.history, tx, db.clock);
      BecomeKeeps(db, t, Applied(tx.start, tx.id, tx.expected, tx.cmd, tx.base, db.clock, decided.value.0, decided.value.1));
    }
  }

  /**
   The heart of it. The version test passes only when the committed version is the one the
   row was read at: a provided version is at most that one, and versions only grow.
   */
  lemma {:induction false} UpdateFindsWhatWasRead(db: Db, tx: Tx)
    requires Current(db) && tx.Applied? && InOrder(db, tx)
    requires db.rows[tx.id].version == ExpectedVersionOr(tx.expected, tx.base.version)
    ensures db.rows[tx.id] == tx.base
  {
  }

  lemma {:induction false} UpdateKeeps(db: Db, t: TxId, tx: Tx)
    requires tx.Applied? && InOrder(db, tx) && Current(db)
    ensures Current(ExecUpdate(db, t, tx))
  {
    DropKeeps(db, t);
    if tx.id in db.rows && db.rows[tx.id].version == ExpectedVersionOr(tx.expected, tx.base.version)
       && db.rows[tx.id].ServiceRow? == tx.agg.Svc?
    {
      UpdateFindsWhatWasRead(db, tx);
      DecideAdvances(tx.base, tx.cmd, tx.now);
      var w := Write(Change(tx.id, tx.cmd, tx.now), Some(tx.base), Some(tx.base), ToRow(tx.agg), tx.events);
      assert WriteOk(db.rows, w);
      BecomeKeeps(db, t, Wrote(tx.start, w));
    }
  }

  lemma {:induction false} InsertKeeps(db: Db, t: TxId, tx: Tx)
    requires tx.Checked? && InOrder(db, tx) && Current(db)
    ensures Current(ExecInsert(db, t, tx))
  {
    DropKeeps(db, t);
    var row := ToRow(tx.agg);
    if IdOf(row) !in db.rows && !KeyTaken(db.rows, KeyOf(row)) {
      var w := BirthWrite(tx.agg);
      assert WriteOk(db.rows, w);
      BecomeKeeps(db, t, Wrote(tx.start, w));
    }
  }

  lemma {:induction false} BeginCreateKeeps(db: Db, t: TxId, input: NewInput, newId: int, at: Time)
    requires Build(input, newId, at).Ok? && Current(db)
    ensures Current(Become(db, t, Creating(db.clock, Build(input, newId, at).value)))
  {
    BuildIsValid(input, newId, at);
    BecomeKeeps(db, t, Creating(db.clock, Build(input, newId, at).value));
  }

  lemma {:induction false} CheckKeeps(db: Db, t: TxId, tx: Tx)
    requires tx.Creating? && InOrder(db, tx) && Current(db)
    ensures Current(Drop(db, t)) && Current(Become(db, t, Checked(tx.start, tx.agg)))
  {
    DropKeeps(db, t);
    BecomeKeeps(db, t, Checked(tx.start, tx.agg));
  }

  lemma {:induction false} RecordKeeps(db: Db, t: TxId, tx: Tx)
    requires t in db.txs && db.txs[t] == tx && tx.Wrote? && Current(db)
    ensures Current(Become(db, t, Recorded(tx.start, tx.write, ViewOf(db.history, tx.write))))
  {
    assert InOrder(db, tx);
    BecomeKeeps(db, t, Recorded(tx.start, tx.write, ViewOf(db.history, tx.write)));
  }

  lemma {:induction false} AppendKeeps(db: Db, t: TxId, tx: Tx, ids: seq<int>)
    requires t in db.txs && db.txs[t] == tx && tx.Recorded? && |ids| == |tx.write.events| && Current(db)
    ensures Current(Become(db, t, Ready(tx.start, tx.write, tx.view, OutboxRows(tx.write.events, ids, tx.start))))
  {
    assert InOrder(db, tx);
    BecomeKeeps(db, t, Ready(tx.start, tx.write, tx.view, OutboxRows(tx.write.events, ids, tx.start)));
  }

  // --- Commit ---

  /** What a commit does to the row table: one valid row, new or one version on, or unchanged. */
  lemma {:induction false} CommitRows(rows: map<AggId, Row>, w: Write)
    requires RowsOk(rows) && WriteOk(rows, w)
    ensures RowsOk(rows[IdOf(w.row) := w.row])
    ensures w.op.Change? ==> IdOf(w.row) == w.op.id
  {
    if w.op.Change? {
      assert RowOk(w.op.id, rows[w.op.id]);
    }
    assert RowOk(IdOf(w.row), w.row);
  }

  /** A pending write on another row does not notice. */
  lemma {:induction false} CommitKeepsWriter(db: Db, w: Write, v: Write)
    requires RowsOk(db.rows) && WriteOk(db.rows, w) && WriteOk(db.rows, v)
    requires IdOf(v.row) != IdOf(w.row) && KeyOf(v.row) != KeyOf(w.row)
    ensures WriteOk(db.rows[IdOf(w.row) := w.row], v)
  {
    var rows' := db.rows[IdOf(w.row) := w.row];
    if v.op.Change? {
      assert RowOk(v.op.id, db.rows[v.op.id]);
    } else {
      forall k | k in rows' ensures KeyOf(rows'[k]) != KeyOf(v.row) {
        assert k != IdOf(w.row) ==> k in db.rows;
      }
    }
  }

  lemma {:induction false} CommitKeepsView(history: map<AggId, seq<H.Interval>>, row: Row, view: seq<H.Interval>, v: Write)
    requires IdOf(v.row) != IdOf(row)
    ensures ViewOf(Install(history, row, view), v) == ViewOf(history, v)
  {
  }

  /** A reader of the row keeps a valid base. */
  lemma {:induction false} CommitKeepsBase(db: Db, w: Write, id: AggId, base: Row)
    requires RowsOk(db.rows) && WriteOk(db.rows, w) && BaseOk(db.rows, id, base)
    ensures BaseOk(db.rows[IdOf(w.row) := w.row], id, base)
  {
    if w.op.Change? {
      assert RowOk(w.op.id, db.rows[w.op.id]);
    }
  }

  lemma {:induction false} KeyStays(rows: map<AggId, Row>, w: Write, id: AggId)
    requires RowsOk(rows) && WriteOk(rows, w) && id in rows
    ensures KeyOf(rows[IdOf(w.row) := w.row][id]) == KeyOf(rows[id])
  {
    if w.op.Change? {
      assert RowOk(w.op.id, rows[w.op.id]);
    }
  }

  lemma {:induction false} KeysStayTaken(db: Db, w: Write, k: UniqueKey)
    requires RowsOk(db.rows) && WriteOk(db.rows, w) && KeyTaken(db.rows, k)
    ensures KeyTaken(db.rows[IdOf(w.row) := w.row], k)
  {
    var i :| i in db.rows && KeyOf(db.rows[i]) == k;
    KeyStays(db.rows, w, i);
    var rows' := db.rows[IdOf(w.row) := w.row];
    assert i in rows' && KeyOf(rows'[i]) == k;
  }

  /** Nobody creates an aggregate for which no unique key is left. */
  lemma {:induction false} OnlyCreatable(db: Db, w: Write)
    requires WriteOk(db.rows, w) && w.op.Create?
    ensures Creatable(db.rows, IdOf(w.row)) && w.row.version == 1
  {
    if w.row.TenantRow? {
      assert FreeSlug(db.rows, w.row.slug);
    }
  }

  lemma {:induction false} CommitKeepsExpectation(db: Db, w: Write, id: AggId, expected: int)
    requires RowsOk(db.rows) && WriteOk(db.rows, w) && SafeExpectation(db.rows, id, expected)
    ensures SafeExpectation(db.rows[IdOf(w.row) := w.row], id, expected)
  {
    var rows' := db.rows[IdOf(w.row) := w.row];
    if w.op.Create? {
      OnlyCreatable(db, w);
    } else {
      assert RowOk(w.op.id, db.rows[w.op.id]);
    }
    if id !in rows' && id.TenantId? {
      forall slug | FreeSlug(rows', slug) ensures FreeSlug(db.rows, slug) {
        if KeyTaken(db.rows, SlugOnly(slug)) {
          KeysStayTaken(db, w, SlugOnly(slug));
        }
      }
    }
  }

  lemma {:induction false} CommitKeepsOther(db: Db, w: Write, view: seq<H.Interval>, tx: Tx)
    requires RowsOk(db.rows) && WriteOk(db.rows, w) && InOrder(db, tx)
    requires tx.Writes() ==> IdOf(tx.write.row) != IdOf(w.row) && KeyOf(tx.write.row) != KeyOf(w.row)
    ensures TxOk(db.rows[IdOf(w.row) := w.row], Install(db.history, w.row, view), tx)
  {
    if tx.Writes() {
      CommitKeepsWriter(db, w, tx.write);
      CommitKeepsView(db.history, w.row, view, tx.write);
    } else if tx.Loaded? || tx.Applied? {
      CommitKeepsBase(db, w, tx.id, tx.base);
    } else if tx.Begun? {
      CommitKeepsExpectation(db, w, tx.id, tx.expected);
    }
  }

  lemma {:induction false} SerialAppend(log: seq<Commit>, c: Commit)
    ensures Serial(log + [c]) == match Serial(log) case None => None case Some(tb) => SerialStep(tb, c.write)
  {
    assert (log + [c])[..|log|] == log;
  }

  /** The simple machine takes the same step. */
  lemma {:induction false} CommitIsSerialStep(db: Db, w: Write)
    requires RowsOk(db.rows) && WriteOk(db.rows, w)
    ensures SerialStep(Tables(db.rows, db.history), w)
         == Some(Tables(db.rows[IdOf(w.row) := w.row], Install(db.history, w.row, ViewOf(db.history, w))))
  {
    CommitRows(db.rows, w);
  }

  lemma {:induction false} CommitKeepsETags(db: Db, w: Write)
    requires ETagsOk(db) && RowsOk(db.rows) && WriteOk(db.rows, w)
    ensures forall e | e in db.etags + {(IdOf(w.row), w.row.version)} ::
              var rows' := db.rows[IdOf(w.row) := w.row]; e.0 in rows' && e.1 <= rows'[e.0].version
  {
    CommitRows(db.rows, w);
  }

  lemma {:induction false} CommitKeeps(db: Db, t: TxId, tx: Tx, acked: bool)
    requires t in db.txs && db.txs[t] == tx && tx.Ready? && Current(db) && I.Exclusive(db.txs)
    ensures Current(ExecCommit(db, t, tx, acked))
  {
    assert InOrder(db, tx);
    var w := tx.write;
    var db' := ExecCommit(db, t, tx, acked);
    assert RowsOk(db'.rows) by { CommitRows(db.rows, w); }
    assert ETagsOk(db') by { CommitKeepsETags(db, w); }
    assert Serial(db'.log) == Some(Tables(db'.rows, db'.history)) by {
      SerialAppend(db.log, Commit(t, w, tx.out));
      CommitIsSerialStep(db, w);
    }
    forall u | u in db'.txs ensures InOrder(db', db'.txs[u]) {
      assert u in db.txs && u != t;
      CommitKeepsOther(db, w, tx.view, db.txs[u]);
    }
  }

  // --- Every step, every run ---

  /** The statements of a transaction before it writes. */
  lemma {:induction false} ReadingKeeps(db: Db, s: Step)
    requires Current(db) && Enabled(db, s) && Safe(db, s)
    requires s.Load? || s.Apply? || s.CheckName? || s.BeginChange? || s.BeginCreate?
    ensures Current(Exec(db, s))
  {
    match s
    case BeginChange(t, id, expected, cmd) => BecomeKeeps(db, t, Begun(db.clock, id, expected, cmd));
    case BeginCreate(t, input, newId, at) => BeginCreateKeeps(db, t, input, newId, at);
    case Load(t) => LoadKeeps(db, t, db.txs[t]);
    case Apply(t) => ApplyKeeps(db, t, db.txs[t]);
    case CheckName(t) => CheckKeeps(db, t, db.txs[t]);
  }

  lemma {:induction false} StepKeepsInv(db: Db, s: Step)
    requires Inv(db) && Enabled(db, s) && Safe(db, s)
    ensures Inv(Exec(db, s))
  {
    I.StepKeepsInv(db, s);
    match s
    case Tick(_) =>
    case Get(id) =>
    case Update(t) => UpdateKeeps(db, t, db.txs[t]);
    case Insert(t) => InsertKeeps(db, t, db.txs[t]);
    case RecordOwnership(t) => RecordKeeps(db, t, db.txs[t]);
    case Append(t, ids) => AppendKeeps(db, t, db.txs[t], ids);
    case CommitTx(t, acked) => CommitKeeps(db, t, db.txs[t], acked);
    case Rollback(t) => DropKeeps(db, t);
    case _ => ReadingKeeps(db, s);
  }
}
