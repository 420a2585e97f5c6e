/**
 The whole path from a command to the bus: command transactions, the outbox table they share
 with the relays, and the stream. Commits, rollbacks, claims, publishes, crashes and lost
 acknowledgements interleave freely, and no client is assumed to be well behaved.
 */
module EndToEnd {
  import opened Events
  import C = CommandProtocol
  import I = CommandIdentity
  import L = CommandLog
  import CommandRuns
  import R = RelayProtocol

  datatype System = System(db: C.Db, relay: R.Relay)

  datatype Step = Command(c: C.Step) | Relay(r: R.Step)

  function OutIds(out: seq<OutboxRow>): set<int> { set r | r in out :: r.id }

  /** No other live transaction has inserted one of these outbox ids. */
  predicate IdsFree(txs: map<C.TxId, C.Tx>, t: C.TxId, ids: seq<int>) {
    forall u | u in txs && u != t && txs[u].Ready? :: OutIds(txs[u].out) !! (set id | id in ids)
  }

  /** The outbox primary key is checked when events are appended; only commits add outbox rows. */
  predicate Enabled(s: System, step: Step) {
    match step
    case Command(c) =>
      && C.Enabled(s.db, c)
      && (c.Append? ==> R.Distinct(c.ids) && (forall i | 0 <= i < |c.ids| :: c.ids[i] !in s.relay.outbox)
                        && IdsFree(s.db.txs, c.tx, c.ids))
      && (c.CommitTx? ==> R.Enabled(s.relay, R.Produce(s.db.txs[c.tx].out)))
    case Relay(r) => !r.Produce? && R.Enabled(s.relay, r)
  }

  function Exec(s: System, step: Step): System
    requires Enabled(s, step)
  {
    match step
    case Command(c) =>
      System(C.Exec(s.db, c),
             if c.CommitTx? then R.Exec(s.relay, R.Produce(s.db.txs[c.tx].out)) else s.relay)
    case Relay(r) => System(s.db, R.Exec(s.relay, r))
  }

  predicate IsRun(s: System, steps: seq<Step>)
    decreases |steps|
  {
    steps == [] || (Enabled(s, steps[0]) && IsRun(Exec(s, steps[0]), steps[1..]))
  }

  function Run(s: System, steps: seq<Step>): System
    requires IsRun(s, steps)
    decreases |steps|
  {
    if steps == [] then s else Run(Exec(s, steps[0]), steps[1..])
  }

  // --- The invariant ---

  /** A pending append carries its transaction's events, under ids the table does not have. */
  ghost predicate PendingOk(outbox: map<int, OutboxRow>, tx: C.Tx) {
    tx.Ready? ==>
      I.Carries(tx.out, tx.write.events) && R.Distinct(R.RowIds(tx.out)) && OutIds(tx.out) !! outbox.Keys
  }

  /** Two pending appends share no id. */
  ghost predicate Apart(txs: map<C.TxId, C.Tx>) {
    forall t, u | t in txs && u in txs && t != u && txs[t].Ready? && txs[u].Ready? ::
      OutIds(txs[t].out) !! OutIds(txs[u].out)
  }

  ghost predicate OutboxIsLog(outbox: map<int, OutboxRow>, rows: seq<OutboxRow>) {
    && (forall r | r in rows :: r.id in outbox && outbox[r.id] == r)
    && (forall id | id in outbox :: outbox[id] in rows)
  }

  ghost predicate Inv(s: System) {
    && R.Inv(s.relay)
    && OutboxIsLog(s.relay.outbox, L.LogRows(s.db.log))
    && (forall t | t in s.db.txs :: PendingOk(s.relay.outbox, s.db.txs[t])) && Apart(s.db.txs)
    && (forall k | 0 <= k < |s.db.log| :: I.Carries(s.db.log[k].out, s.db.log[k].write.events))
  }

  /** A commit is always possible where the command protocol allows it: its outbox rows fit. */
  lemma {:induction false} CommitFits(s: System, t: C.TxId, acked: bool)
    requires Inv(s) && C.Enabled(s.db, C.CommitTx(t, acked))
    ensures Enabled(s, Command(C.CommitTx(t, acked)))
  {
    assert PendingOk(s.relay.outbox, s.db.txs[t]);
  }

  lemma {:induction false} LogRowsAppend(log: seq<C.Commit>, c: C.Commit)
    ensures L.LogRows(log + [c]) == L.LogRows(log) + c.out
  {
    assert (log + [c])[..|log|] == log;
  }

  lemma {:induction false} CommitKeeps(s: System, t: C.TxId, acked: bool)
    requires Inv(s) && Enabled(s, Command(C.CommitTx(t, acked)))
    ensures Inv(Exec(s, Command(C.CommitTx(t, acked))))
  {
    var s' := Exec(s, Command(C.CommitTx(t, acked)));
    var out := s.db.txs[t].out;
    assert PendingOk(s.relay.outbox, s.db.txs[t]);
    R.StepKeepsInv(s.relay, R.Produce(out));
    var c := C.Commit(t, s.db.txs[t].write, out);
    assert s'.db.log == s.db.log + [c];
    LogRowsAppend(s.db.log, c);
    CommitMatches(s.relay.outbox, L.LogRows(s.db.log), out);
    forall u | u in s'.db.txs ensures PendingOk(s'.relay.outbox, s'.db.txs[u]) {
      assert u in s.db.txs && u != t && PendingOk(s.relay.outbox, s.db.txs[u]);
    }
  }

  lemma {:induction false} CommitMatches(outbox: map<int, OutboxRow>, rows: seq<OutboxRow>, out: seq<OutboxRow>)
    requires OutboxIsLog(outbox, rows)
    requires R.Distinct(R.RowIds(out)) && forall i | 0 <= i < |out| :: out[i].id !in outbox
    ensures OutboxIsLog(R.AddRows(outbox, out), rows + out)
    ensures R.AddRows(outbox, out).Keys == outbox.Keys + OutIds(out)
  {
    R.AddRowsFacts(outbox, out);
    var all := R.AddRows(outbox, out);
    forall id | id in all ensures all[id] in rows + out && id in outbox.Keys + OutIds(out) {
      if id in outbox {
        assert outbox[id] in rows;
      } else {
        var i :| 0 <= i < |out| && out[i].id == id;
        assert out[i] in out;
      }
    }
    forall r | r in rows + out ensures r.id in all && all[r.id] == r {
      if r in out {
        var i :| 0 <= i < |out| && out[i] == r;
      }
    }
    forall id | id in outbox.Keys + OutIds(out) ensures id in all {
      if id !in outbox {
        var r :| r in out && r.id == id;
        assert r in rows + out;
      }
    }
  }

  /** Appending events is the only step that changes what is pending. */
  lemma {:induction false} OnlyAppendPends(db: C.Db, c: C.Step, t: C.TxId)
    requires C.Enabled(db, c) && !c.CommitTx? && t in C.Exec(db, c).txs && C.Exec(db, c).txs[t].Ready?
    ensures t in db.txs
    ensures if c.Append? && c.tx == t then
              R.RowIds(C.Exec(db, c).txs[t].out) == c.ids
              && I.Carries(C.Exec(db, c).txs[t].out, C.Exec(db, c).txs[t].write.events)
            else C.Exec(db, c).txs[t] == db.txs[t]
  {
  }

  lemma {:induction false} IdsOfRows(out: seq<OutboxRow>)
    ensures OutIds(out) == set id | id in R.RowIds(out)
  {
    forall r | r in out ensures r.id in R.RowIds(out) {
      var i :| 0 <= i < |out| && out[i] == r;
      assert R.RowIds(out)[i] == r.id;
    }
  }

  lemma {:induction false} CommandKeeps(s: System, c: C.Step)
    requires Inv(s) && Enabled(s, Command(c)) && !c.CommitTx?
    ensures Inv(Exec(s, Command(c)))
  {
    var txs := C.Exec(s.db, c).txs;
    assert C.Exec(s.db, c).log == s.db.log;
    forall t | t in txs ensures PendingOk(s.relay.outbox, txs[t]) {
      if txs[t].Ready? {
        OnlyAppendPends(s.db, c, t);
        assert PendingOk(s.relay.outbox, s.db.txs[t]);
        IdsOfRows(txs[t].out);
      }
    }
    forall t, u | t in txs && u in txs && t != u && txs[t].Ready? && txs[u].Ready?
      ensures OutIds(txs[t].out) !! OutIds(txs[u].out)
    {
      OnlyAppendPends(s.db, c, t);
      OnlyAppendPends(s.db, c, u);
      IdsOfRows(txs[t].out);
      IdsOfRows(txs[u].out);
    }
  }

  lemma {:induction false} StepKeepsInv(s: System, step: Step)
    requires Inv(s) && Enabled(s, step)
    ensures Inv(Exec(s, step))
  {
    match step
    case Command(c) =>
      if c.CommitTx? {
        CommitKeeps(s, c.tx, c.acked);
      } else {
        CommandKeeps(s, c);
      }
    case Relay(r) =>
      R.StepKeepsInv(s.relay, r);
      assert R.Exec(s.relay, r).outbox == s.relay.outbox;
  }

  lemma {:induction false} RunKeepsInv(s: System, steps: seq<Step>)
    requires Inv(s) && IsRun(s, steps)
    ensures Inv(Run(s, steps))
    decreases |steps|
  {
    if steps != [] {
      StepKeepsInv(s, steps[0]);
      RunKeepsInv(Exec(s, steps[0]), steps[1..]);
    }
  }

  ghost predicate Reaches(s: System, s': System) { exists steps :: IsRun(s, steps) && Run(s, steps) == s' }

  ghost predicate Reachable(s: System) { Reaches(System(C.EmptyDb, R.NewRelay(s.relay.prefix)), s) }

  lemma {:induction false} ReachableInv(s: System)
    requires Reachable(s)
    ensures Inv(s)
  {
    var s0 := System(C.EmptyDb, R.NewRelay(s.relay.prefix));
    var steps :| IsRun(s0, steps) && Run(s0, steps) == s;
    RunKeepsInv(s0, steps);
  }

  // --- Theorems ---

  /** The command steps of a system run. */
  function CommandsOf(steps: seq<Step>): seq<C.Step> {
    if steps == [] then []
    else (if steps[0].Command? then [steps[0].c] else []) + CommandsOf(steps[1..])
  }

  /** Relays do not disturb commands: what the database goes through is a run of the command protocol. */
  lemma {:induction false} RelaysAreInvisible(s: System, steps: seq<Step>)
    requires IsRun(s, steps)
    ensures C.IsRun(s.db, CommandsOf(steps)) && C.Run(s.db, CommandsOf(steps)) == Run(s, steps).db
    decreases |steps|
  {
    if steps != [] {
      RelaysAreInvisible(Exec(s, steps[0]), steps[1..]);
      var rest := CommandsOf(steps[1..]);
      if steps[0].Command? {
        assert ([steps[0].c] + rest)[0] == steps[0].c && ([steps[0].c] + rest)[1..] == rest;
      } else {
        assert CommandsOf(steps) == rest;
      }
    }
  }

  /** What one step of the system is for the relays: a commit inserts its outbox rows. */
  function RelayPart(s: System, step: Step): seq<R.Step>
    requires Enabled(s, step)
  {
    match step
    case Command(c) => if c.CommitTx? then [R.Produce(s.db.txs[c.tx].out)] else []
    case Relay(r) => [r]
  }

  function RelaysOf(s: System, steps: seq<Step>): seq<R.Step>
    requires IsRun(s, steps)
    decreases |steps|
  {
    if steps == [] then [] else RelayPart(s, steps[0]) + RelaysOf(Exec(s, steps[0]), steps[1..])
  }

  /** Commands reach the relays only through the outbox: what the relays go through is a run of their protocol. */
  lemma {:induction false} CommandsAreProducers(s: System, steps: seq<Step>)
    requires IsRun(s, steps)
    ensures R.IsRun(s.relay, RelaysOf(s, steps)) && R.Run(s.relay, RelaysOf(s, steps)) == Run(s, steps).relay
    decreases |steps|
  {
    if steps != [] {
      CommandsAreProducers(Exec(s, steps[0]), steps[1..]);
      var first, rest := RelayPart(s, steps[0]), RelaysOf(Exec(s, steps[0]), steps[1..]);
      if first == [] {
        assert first + rest == rest;
      } else {
        assert (first + rest)[0] == first[0] && (first + rest)[1..] == rest;
      }
    }
  }

  /** So every theorem about reachable relays holds in the whole system. */
  lemma {:induction false} RelayPartReachable(s: System)
    requires Reachable(s)
    ensures R.Reachable(s.relay)
  {
    var s0 := System(C.EmptyDb, R.NewRelay(s.relay.prefix));
    var steps :| IsRun(s0, steps) && Run(s0, steps) == s;
    CommandsAreProducers(s0, steps);
  }

  /** The row a step of the system newly marks was in the stream, word for word, before that step. */
  lemma {:induction false} StoredEarlier(s: System, step: Step, id: int)
    requires Reachable(s) && Enabled(s, step) && id in Exec(s, step).relay.published && id !in s.relay.published
    ensures id in s.relay.outbox
            && exists m :: 0 <= m < |s.relay.stream| && R.Conveys(s.relay.stream[m].msg, s.relay.prefix, id, s.relay.outbox[id].event)
  {
    RelayPartReachable(s);
    R.StoredBeforeMarked(s.relay, step.r, id);
  }

  /** The table the relays publish from holds the log's rows, and these replay each aggregate. */
  lemma {:induction false} OutboxReplays(prefix: string, steps: seq<Step>, id: AggId)
    requires IsRun(System(C.EmptyDb, R.NewRelay(prefix)), steps) && C.ETagRun(C.EmptyDb, CommandsOf(steps))
    requires id in Run(System(C.EmptyDb, R.NewRelay(prefix)), steps).db.rows
    ensures var s := Run(System(C.EmptyDb, R.NewRelay(prefix)), steps);
            var events := L.Concerning(L.LogRows(s.db.log), id);
            && OutboxIsLog(s.relay.outbox, L.LogRows(s.db.log))
            && |events| == s.db.rows[id].version
            && L.Replay(events, L.FirstTeam(s.db.log, id)) == L.Knows(s.db.rows[id])
  {
    var s0 := System(C.EmptyDb, R.NewRelay(prefix));
    RunKeepsInv(s0, steps);
    CommandsReachable(s0, steps);
    CommandRuns.EventLogReplays(Run(s0, steps).db, id);
  }

  lemma {:induction false} CommandsReachable(s: System, steps: seq<Step>)
    requires s.db == C.EmptyDb && IsRun(s, steps) && C.ETagRun(C.EmptyDb, CommandsOf(steps))
    ensures CommandRuns.Reachable(Run(s, steps).db)
  {
    RelaysAreInvisible(s, steps);
  }

  lemma {:induction false} RowHasCommit(log: seq<C.Commit>, r: OutboxRow)
    requires r in L.LogRows(log)
    ensures exists k, i :: 0 <= k < |log| && 0 <= i < |log[k].out| && log[k].out[i] == r
  {
    var last := |log| - 1;
    if r in log[last].out {
      var i :| 0 <= i < |log[last].out| && log[last].out[i] == r;
    } else {
      RowHasCommit(log[..last], r);
      var k, i :| 0 <= k < last && 0 <= i < |log[..last][k].out| && log[..last][k].out[i] == r;
      assert log[k].out[i] == r;
    }
  }

  /**
   Nothing is ever emitted for a change that did not commit: each message in the stream is,
   word for word, the event of a committed command.
   */
  lemma {:induction false} EveryMessageCommitted(s: System, m: nat)
    requires Reachable(s) && m < |s.relay.stream|
    ensures exists k, i :: 0 <= k < |s.db.log| && 0 <= i < |s.db.log[k].out| == |s.db.log[k].write.events|
                           && s.db.log[k].out[i].event == s.db.log[k].write.events[i]
                           && R.Conveys(s.relay.stream[m].msg, s.relay.prefix, s.db.log[k].out[i].id, s.db.log[k].write.events[i])
  {
    ReachableInv(s);
    var id := s.relay.stream[m].msg.id;
    var row := s.relay.outbox[id];
    RowHasCommit(s.db.log, row);
    var k, i :| 0 <= k < |s.db.log| && 0 <= i < |s.db.log[k].out| && s.db.log[k].out[i] == row;
    assert I.Carries(s.db.log[k].out, s.db.log[k].write.events);
  }

  lemma {:induction false} CommitRowsLogged(log: seq<C.Commit>, k: nat, i: nat)
    requires k < |log| && i < |log[k].out|
    ensures log[k].out[i] in L.LogRows(log)
  {
    if k < |log| - 1 {
      CommitRowsLogged(log[..|log| - 1], k, i);
    }
  }

  /** Events are never lost: whatever was committed is in the outbox, in this state and in all later ones. */
  lemma {:induction false} NothingDisappears(s: System, s': System, k: nat, i: nat)
    requires Reachable(s) && Reaches(s, s') && k < |s.db.log| && i < |s.db.log[k].out|
    ensures var row := s.db.log[k].out[i]; row.id in s'.relay.outbox && s'.relay.outbox[row.id] == row
  {
    ReachableInv(s);
    CommitRowsLogged(s.db.log, k, i);
    var steps :| IsRun(s, steps) && Run(s, steps) == s';
    OutboxGrows(s, steps, s.db.log[k].out[i].id);
  }

  lemma {:induction false} OutboxGrows(s: System, steps: seq<Step>, id: int)
    requires Inv(s) && IsRun(s, steps) && id in s.relay.outbox
    ensures id in Run(s, steps).relay.outbox && Run(s, steps).relay.outbox[id] == s.relay.outbox[id]
    decreases |steps|
  {
    if steps != [] {
      var s1 := Exec(s, steps[0]);
      if steps[0].Command? && steps[0].c.CommitTx? {
        R.StepOnlyAdds(s.relay, R.Produce(s.db.txs[steps[0].c.tx].out));
      } else if steps[0].Relay? {
        R.StepOnlyAdds(s.relay, steps[0].r);
      }
      StepKeepsInv(s, steps[0]);
      OutboxGrows(s1, steps[1..], id);
    }
  }

  /** A row is marked published only once its message is in the stream. */
  lemma {:induction false} MarkedMeansStored(s: System, id: int)
    requires Reachable(s) && id in s.relay.published
    ensures id in s.relay.outbox
            && exists m :: 0 <= m < |s.relay.stream| && R.Conveys(s.relay.stream[m].msg, s.relay.prefix, id, s.relay.outbox[id].event)
  {
    ReachableInv(s);
    assert R.InStream(s.relay.stream, id);
    var m :| 0 <= m < |s.relay.stream| && s.relay.stream[m].msg.id == id;
    assert R.Conveys(s.relay.stream[m].msg, s.relay.prefix, id, s.relay.outbox[id].event);
  }
}
