/**
 What a client's If-Match number does, over every run. A commit of a transaction that was begun with
 a positive number replaced a row of exactly that version; one begun without replaced a row of the
 version it had read; and an update that finds another version rolls back.
 */
module VersionTests {
  import opened Wrappers
  import opened Events
  import opened Aggregates
  import opened CommandProtocol
  import I = CommandIdentity

  /** The number the latest change begun as transaction t came with; none is zero. */
  function SentBy(steps: seq<Step>, t: TxId): int {
    if steps == [] then 0
    else
      var last := steps[|steps| - 1];
      if last.BeginChange? && last.tx == t then last.expected else SentBy(steps[..|steps| - 1], t)
  }

  /** The version an update looks for. */
  function Wanted(sent: int, base: Row): int { if sent > 0 then sent else base.version }

  /** A transaction remembers its number until it writes, and then has found that version. */
  ghost predicate Tested(tx: Tx, sent: int) {
    match tx
    case Begun(_, _, expected, _) => expected == sent
    case Loaded(_, _, expected, _, _) => expected == sent
    case Applied(_, _, expected, _, _, _, _, _) => expected == sent
    case Creating(_, _) => true
    case Checked(_, _) => true
    case _ => tx.write.op.Change? ==>
        tx.write.base.Some? && tx.write.replaced.Some? && tx.write.replaced.value.version == Wanted(sent, tx.write.base.value)
  }

  ghost predicate AllTested(db: Db, steps: seq<Step>) {
    forall t | t in db.txs :: Tested(db.txs[t], SentBy(steps, t))
  }

  lemma {:induction false} SentAppend(steps: seq<Step>, s: Step, t: TxId)
    ensures SentBy(steps + [s], t) == if s.BeginChange? && s.tx == t then s.expected else SentBy(steps, t)
  {
    assert (steps + [s])[..|steps|] == steps;
  }

  lemma {:induction false} ApplyTests(db: Db, t: TxId, sent: int)
    requires t in db.txs && db.txs[t].Loaded? && Tested(db.txs[t], sent)
    ensures t in Exec(db, Step.Apply(t)).txs ==> Tested(Exec(db, Step.Apply(t)).txs[t], sent)
  {
    var decided := I.ApplyOutcome(db, t, db.txs[t]);
  }

  /** The version test of UPDATE: it passes exactly on the wanted version. */
  lemma {:induction false} UpdateTests(db: Db, t: TxId, sent: int)
    requires Enabled(db, Update(t)) && Tested(db.txs[t], sent)
    requires db.txs[t].id in db.rows && (db.rows[db.txs[t].id].ServiceRow? <==> db.txs[t].agg.Svc?)
    ensures var found, db' := db.rows[db.txs[t].id], Exec(db, Update(t));
            if found.version == Wanted(sent, db.txs[t].base) then t in db'.txs && Tested(db'.txs[t], sent) && db'.txs[t].Writes()
            else t !in db'.txs
  {
  }

  lemma {:induction false} StepTests(db: Db, s: Step, t: TxId, sent: int)
    requires Enabled(db, s) && t in Exec(db, s).txs
    requires t in db.txs && !(s.BeginChange? && s.tx == t) ==> Tested(db.txs[t], sent)
    requires s.BeginChange? && s.tx == t ==> s.expected == sent
    ensures Tested(Exec(db, s).txs[t], sent)
  {
    if s.Apply? && s.tx == t {
      ApplyTests(db, t, sent);
    }
  }

  lemma {:induction false} RunTests(steps: seq<Step>)
    requires IsRun(EmptyDb, steps)
    ensures AllTested(Run(EmptyDb, steps), steps)
    decreases |steps|
  {
    if steps != [] {
      var front, s := steps[..|steps| - 1], steps[|steps| - 1];
      assert steps == front + [s];
      FrontIsRun(EmptyDb, front, s);
      RunTests(front);
      var db := Run(EmptyDb, front);
      forall t | t in Exec(db, s).txs ensures Tested(Exec(db, s).txs[t], SentBy(steps, t)) {
        SentAppend(front, s, t);
        assert t in db.txs ==> Tested(db.txs[t], SentBy(front, t));
        StepTests(db, s, t, SentBy(steps, t));
      }
    }
  }

  lemma {:induction false} FrontIsRun(db: Db, steps: seq<Step>, s: Step)
    requires IsRun(db, steps + [s])
    ensures IsRun(db, steps) && Enabled(Run(db, steps), s) && Run(db, steps + [s]) == Exec(Run(db, steps), s)
    decreases |steps|
  {
    if steps == [] {
      assert [] + [s] == [s] && [s][1..] == [];
    } else {
      assert (steps + [s])[0] == steps[0] && (steps + [s])[1..] == steps[1..] + [s];
      FrontIsRun(Exec(db, steps[0]), steps[1..], s);
    }
  }

  /** Every committed change replaced a row of the version its client sent, or else of the version it had read. */
  lemma {:induction false} CommitTestedVersion(steps: seq<Step>, t: TxId, acked: bool)
    requires IsRun(EmptyDb, steps + [CommitTx(t, acked)]) && IsRun(EmptyDb, steps)
    ensures var db, sent := Run(EmptyDb, steps + [CommitTx(t, acked)]), SentBy(steps, t);
            && |db.log| > 0 && db.log[|db.log| - 1].tx == t
            && var w := db.log[|db.log| - 1].write;
               w.op.Change? ==>
                 && w.base.Some? && w.replaced.Some?
                 && (sent > 0 ==> w.replaced.value.version == sent)
                 && (sent <= 0 ==> w.replaced.value.version == w.base.value.version)
  {
    FrontIsRun(EmptyDb, steps, CommitTx(t, acked));
    RunTests(steps);
    assert Tested(Run(EmptyDb, steps).txs[t], SentBy(steps, t));
  }

  /** An update that finds a row of another version than its client sent, or without a number than it read, rolls back. */
  lemma {:induction false} OtherVersionRollsBack(steps: seq<Step>, t: TxId)
    requires IsRun(EmptyDb, steps) && Enabled(Run(EmptyDb, steps), Update(t))
    requires var db := Run(EmptyDb, steps); db.txs[t].id in db.rows
    ensures var db, sent := Run(EmptyDb, steps), SentBy(steps, t);
            var found, db' := db.rows[db.txs[t].id], Exec(db, Update(t));
            && db'.rows == db.rows && db'.log == db.log
            && (sent > 0 && found.version != sent ==> t !in db'.txs)
            && (sent <= 0 && found.version != db.txs[t].base.version ==> t !in db'.txs)
            && (t in db'.txs ==> db'.txs[t].Writes() && db'.txs[t].write.replaced == Some(found))
  {
    RunTests(steps);
    var db := Run(EmptyDb, steps);
    assert Tested(db.txs[t], SentBy(steps, t));
    I.OnlyCommitsLeaveTraces(db, Update(t));
    if db.rows[db.txs[t].id].ServiceRow? <==> db.txs[t].agg.Svc? {
      UpdateTests(db, t, SentBy(steps, t));
    }
  }
}
