/** The safety theorems over every run of command transactions. */
module CommandRuns {
  import opened Wrappers
  import opened Events
  import opened Aggregates
  import opened CommandProtocol
  import opened CommandSafety
  import opened CommandLog
  import H = OwnershipHistory
  import I = CommandIdentity

  lemma {:induction false} RunKeepsInv(db: Db, steps: seq<Step>)
    requires Inv(db) && SafeRun(db, steps)
    ensures IsRun(db, steps) && Inv(Run(db, steps))
    decreases |steps|
  {
    if steps != [] {
      StepKeepsInv(db, steps[0]);
      RunKeepsInv(Exec(db, steps[0]), steps[1..]);
    }
  }

  /** A version that was handed out is at most the committed one, whatever happened since. */
  lemma {:induction false} ETagRunIsSafe(db: Db, steps: seq<Step>)
    requires Inv(db) && ETagRun(db, steps)
    ensures SafeRun(db, steps)
    decreases |steps|
  {
    if steps != [] {
      assert Safe(db, steps[0]);
      StepKeepsInv(db, steps[0]);
      ETagRunIsSafe(Exec(db, steps[0]), steps[1..]);
    }
  }

  /** Reached from the empty database by clients that send only versions they were given. */
  ghost predicate Reachable(db: Db) {
    exists steps :: ETagRun(EmptyDb, steps) && IsRun(EmptyDb, steps) && Run(EmptyDb, steps) == db
  }

  ghost predicate LeadsTo(db: Db, db': Db) {
    exists steps :: ETagRun(db, steps) && IsRun(db, steps) && Run(db, steps) == db'
  }

  lemma {:induction false} ReachableInv(db: Db)
    requires Reachable(db)
    ensures Inv(db)
  {
    var steps :| ETagRun(EmptyDb, steps) && IsRun(EmptyDb, steps) && Run(EmptyDb, steps) == db;
    EmptyInv();
    ETagRunIsSafe(EmptyDb, steps);
    RunKeepsInv(EmptyDb, steps);
  }

  /** Concurrent commands are serializable in commit order. */
  lemma {:induction false} Serializable(db: Db)
    requires Reachable(db)
    ensures Serial(db.log) == Some(Tables(db.rows, db.history))
  {
    ReachableInv(db);
  }

  /** No update is lost, and no version of an aggregate is ever committed with two contents. */
  lemma {:induction false} NoLostUpdates(db: Db)
    requires Reachable(db)
    ensures forall k | 0 <= k < |db.log| && db.log[k].write.op.Change? ::
              db.log[k].write.base.Some? && db.log[k].write.base == db.log[k].write.replaced
    ensures forall i, j | 0 <= i <= j < |db.log| && IdOf(db.log[i].write.row) == IdOf(db.log[j].write.row)
                          && db.log[i].write.row.version == db.log[j].write.row.version ::
              db.log[i].write.row == db.log[j].write.row
  {
    ReachableInv(db);
    forall k | 0 <= k < |db.log| && db.log[k].write.op.Change?
      ensures db.log[k].write.base.Some? && db.log[k].write.base == db.log[k].write.replaced
    {
      NoLostUpdateInLog(db.log, k);
    }
    forall i, j | 0 <= i <= j < |db.log| && IdOf(db.log[i].write.row) == IdOf(db.log[j].write.row)
                  && db.log[i].write.row.version == db.log[j].write.row.version
      ensures db.log[i].write.row == db.log[j].write.row
    {
      OneContentPerVersion(db.log, i, j);
    }
  }

  /** Without the hypothesis on versions, the weaker invariant holds. */
  lemma {:induction false} ReachableIdentity(db: Db)
    requires Reachable(db)
    ensures I.Reached(db) && I.Inv(db)
  {
    var steps :| ETagRun(EmptyDb, steps) && IsRun(EmptyDb, steps) && Run(EmptyDb, steps) == db;
    I.ReachedInv(db);
  }

  /**
   The outbox tells the whole story: the events that name an aggregate number its version, their
   chains are unbroken, and folding them in commit order gives its current state.
   */
  lemma {:induction false} EventLogReplays(db: Db, id: AggId)
    requires Reachable(db) && id in db.rows
    ensures var events := Concerning(LogRows(db.log), id);
            |events| == db.rows[id].version && Replay(events, FirstTeam(db.log, id)) == Knows(db.rows[id])
    ensures id.ServiceId? ==> id in db.history && db.history[id] != []
                              && db.history[id][0].owner.team == FirstTeam(db.log, id)
  {
    ReachableInv(db);
    PickedOut(db, id);
    EventsReplayState(db.log, id);
    HistoryFollowsLog(db.log, id);
    if id.ServiceId? {
      H.HistoryShape(StampsOf(db.log, id));
    }
  }

  lemma {:induction false} PickedOut(db: Db, id: AggId)
    requires Reachable(db)
    ensures Concerning(LogRows(db.log), id) == EventsOf(db.log, id)
  {
    ReachableIdentity(db);
    forall k | 0 <= k < |db.log|
      ensures I.Carries(db.log[k].out, db.log[k].write.events) && I.About(db.log[k].write.events, IdOf(db.log[k].write.row))
    {
      assert I.CommitFine(db.rows, db.log[k]);
    }
    ConcerningIsEventsOf(db.log, id);
  }

  // --- What later states keep ---

  lemma {:induction false} WriteGrows(rows: map<AggId, Row>, w: Write, id: AggId)
    requires RowsOk(rows) && WriteOk(rows, w) && id in rows
    ensures Grown(rows[id], rows[IdOf(w.row) := w.row][id])
  {
    assert RowOk(id, rows[id]);
    if w.op.Change? {
      assert RowOk(w.op.id, rows[w.op.id]);
    }
  }

  lemma {:induction false} StepGrowsRow(db: Db, s: Step, id: AggId)
    requires Inv(db) && Enabled(db, s) && id in db.rows
    ensures id in Exec(db, s).rows && Grown(db.rows[id], Exec(db, s).rows[id])
  {
    if s.CommitTx? {
      assert InOrder(db, db.txs[s.tx]);
      WriteGrows(db.rows, db.txs[s.tx].write, id);
    } else {
      I.OnlyCommitsLeaveTraces(db, s);
      assert RowOk(id, db.rows[id]);
    }
  }

  /** Rows are never removed, never go back a version, never change key; final rows never change. */
  lemma {:induction false} RowsGrow(db: Db, steps: seq<Step>, id: AggId)
    requires Inv(db) && SafeRun(db, steps) && IsRun(db, steps) && id in db.rows
    ensures id in Run(db, steps).rows && Grown(db.rows[id], Run(db, steps).rows[id])
    decreases |steps|
  {
    if steps != [] {
      StepGrowsRow(db, steps[0], id);
      StepKeepsInv(db, steps[0]);
      RowsGrow(Exec(db, steps[0]), steps[1..], id);
    }
  }

  lemma {:induction false} LaterRow(db: Db, db': Db, id: AggId)
    requires Inv(db) && LeadsTo(db, db')
    ensures Inv(db') && (id in db.rows ==> id in db'.rows && Grown(db.rows[id], db'.rows[id]))
  {
    var steps :| ETagRun(db, steps) && IsRun(db, steps) && Run(db, steps) == db';
    ETagRunIsSafe(db, steps);
    RunKeepsInv(db, steps);
    if id in db.rows {
      RowsGrow(db, steps, id);
    }
  }

  lemma {:induction false} FinalRowsNeverChange(db: Db, db': Db, id: AggId)
    requires Reachable(db) && LeadsTo(db, db') && id in db.rows && Terminal(db.rows[id])
    ensures id in db'.rows && db'.rows[id] == db.rows[id]
  {
    ReachableInv(db);
    LaterRow(db, db', id);
  }

  // --- Building runs ---

  lemma {:induction false} RunSnoc(db: Db, steps: seq<Step>, s: Step)
    requires IsRun(db, steps) && Enabled(Run(db, steps), s)
    ensures IsRun(db, steps + [s]) && Run(db, steps + [s]) == Exec(Run(db, steps), s)
    ensures SafeRun(db, steps) && Safe(Run(db, steps), s) ==> SafeRun(db, steps + [s])
    ensures ETagRun(db, steps) && FromETag(Run(db, steps), s) ==> ETagRun(db, steps + [s])
    decreases |steps|
  {
    if steps == [] {
      var db' := Exec(db, s);
      assert [s][1..] == [] && ([] + [s]) == [s];
      assert IsRun(db', []) && SafeRun(db', []) && ETagRun(db', []);
    } else {
      RunSnoc(Exec(db, steps[0]), steps[1..], s);
      assert (steps + [s])[1..] == steps[1..] + [s] && (steps + [s])[0] == steps[0];
    }
  }
}
