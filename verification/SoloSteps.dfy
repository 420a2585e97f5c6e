/** The statements of a transaction that nobody gets in the way of, with the states they lead to. */
module SoloSteps {
  import opened Aggregates
  import opened CommandProtocol

  lemma {:induction false} BecomeTwice(db: Db, t: TxId, tx: Tx, tx': Tx)
    ensures Become(Become(db, t, tx), t, tx') == Become(db, t, tx')
  {
    assert db.txs[t := tx][t := tx'] == db.txs[t := tx'];
  }

  /** Nobody writes, and the aggregate's id and key are free. */
  ghost predicate Room(db: Db, t: TxId, a: Aggregate) {
    && t !in db.txs && (forall u | u in db.txs :: !db.txs[u].Writes())
    && IdOf(ToRow(a)) !in db.rows && !KeyTaken(db.rows, KeyOf(ToRow(a)))
  }

  lemma {:induction false} CheckAlone(db: Db, t: TxId, a: Aggregate)
    requires Room(db, t, a)
    ensures var d := Become(db, t, Creating(db.clock, a));
            Enabled(d, CheckName(t)) && Exec(d, CheckName(t)) == Become(db, t, Checked(db.clock, a))
  {
    BecomeTwice(db, t, Creating(db.clock, a), Checked(db.clock, a));
  }

  lemma {:induction false} InsertAlone(db: Db, t: TxId, a: Aggregate)
    requires Room(db, t, a)
    ensures var d := Become(db, t, Checked(db.clock, a));
            Enabled(d, Insert(t)) && Exec(d, Insert(t)) == Become(db, t, Wrote(db.clock, BirthWrite(a)))
  {
    BecomeTwice(db, t, Checked(db.clock, a), Wrote(db.clock, BirthWrite(a)));
  }

  lemma {:induction false} RecordAlone(db: Db, t: TxId, w: Write)
    ensures var d := Become(db, t, Wrote(db.clock, w));
            && Enabled(d, RecordOwnership(t))
            && Exec(d, RecordOwnership(t)) == Become(db, t, Recorded(db.clock, w, ViewOf(db.history, w)))
  {
    BecomeTwice(db, t, Wrote(db.clock, w), Recorded(db.clock, w, ViewOf(db.history, w)));
  }

  function ReadyWith(db: Db, w: Write, ids: seq<int>): Tx
    requires |ids| == |w.events|
  {
    Ready(db.clock, w, ViewOf(db.history, w), OutboxRows(w.events, ids, db.clock))
  }

  lemma {:induction false} AppendAlone(db: Db, t: TxId, w: Write, ids: seq<int>)
    requires |ids| == |w.events|
    ensures var d := Become(db, t, Recorded(db.clock, w, ViewOf(db.history, w)));
            Enabled(d, Append(t, ids)) && Exec(d, Append(t, ids)) == Become(db, t, ReadyWith(db, w, ids))
  {
    BecomeTwice(db, t, Recorded(db.clock, w, ViewOf(db.history, w)), ReadyWith(db, w, ids));
  }

  /** The database after that transaction. */
  function Installed(db: Db, t: TxId, w: Write, ids: seq<int>): Db
    requires |ids| == |w.events|
  {
    db.(rows := db.rows[IdOf(w.row) := w.row],
        history := Install(db.history, w.row, ViewOf(db.history, w)),
        etags := db.etags + {(IdOf(w.row), w.row.version)},
        log := db.log + [Commit(t, w, OutboxRows(w.events, ids, db.clock))])
  }

  lemma {:induction false} CommitAlone(db: Db, t: TxId, w: Write, ids: seq<int>)
    requires |ids| == |w.events| && t !in db.txs
    ensures var d := Become(db, t, ReadyWith(db, w, ids));
            Enabled(d, CommitTx(t, true)) && Exec(d, CommitTx(t, true)) == Installed(db, t, w, ids)
  {
    assert db.txs[t := ReadyWith(db, w, ids)] - {t} == db.txs;
  }
}
