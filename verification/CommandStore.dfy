/**
 The commands as the application layer runs them: load, mutate the aggregate, versioned update,
 ownership history, outbox, commit. Between any two statements the environment may take any
 steps of other transactions, with any clock readings and any If-Match numbers; what happened is
 returned as a run of the protocol, so every theorem about runs speaks about these methods.
 */
module CommandStore {
  import opened Wrappers
  import opened Events
  import opened Aggregates
  import opened CommandProtocol
  import opened CommandRuns
  import I = CommandIdentity
  import Catalog = CatalogDomain
  import Tenants = TenantDomain
  import Text

  /** Steps that belong to somebody else's transaction, or to none. */
  predicate Foreign(s: Step, t: TxId) { s.Tick? || s.Get? || s.tx != t }

  /** Commits of transaction t from position n of the log on. */
  function CommitsBy(log: seq<Commit>, n: nat, t: TxId): set<nat>
    requires n <= |log|
  {
    set k | n <= k < |log| && log[k].tx == t
  }

  lemma {:induction false} StepLog(db: Db, s: Step)
    requires Enabled(db, s)
    ensures Exec(db, s).log == if s.CommitTx? then db.log + [Commit(s.tx, db.txs[s.tx].write, db.txs[s.tx].out)] else db.log
    ensures db.etags <= Exec(db, s).etags
  {
    if !s.CommitTx? {
      I.OnlyCommitsLeaveTraces(db, s);
    }
  }

  /** A step of somebody else's leaves a transaction alone. */
  lemma {:induction false} ForeignStep(db: Db, s: Step, t: TxId)
    requires Enabled(db, s) && Foreign(s, t)
    ensures (t in Exec(db, s).txs <==> t in db.txs) && (t in db.txs ==> Exec(db, s).txs[t] == db.txs[t])
  {
  }

  /** A unique key that is taken stays taken. */
  lemma {:induction false} TakenForGood(db: Db, steps: seq<Step>, key: UniqueKey)
    requires IsRun(db, steps)
    ensures I.Inv(db) && KeyTaken(db.rows, key) ==> KeyTaken(Run(db, steps).rows, key)
  {
    if I.Inv(db) && KeyTaken(db.rows, key) {
      var id :| id in db.rows && KeyOf(db.rows[id]) == key;
      I.RunKeepsIdentity(db, steps, id);
    }
  }

  class Store {
    /** Whether the other clients send only versions they were given; nothing but `ETagRun` needs it. */
    const polite: bool
    var db: Db
    /** The state the current command started from, and the steps taken since. */
    ghost var origin: Db
    ghost var taken: seq<Step>

    constructor (polite: bool)
      ensures this.polite == polite && db == EmptyDb && Tracks()
    {
      this.polite, db, origin, taken := polite, EmptyDb, EmptyDb, [];
    }

    ghost predicate Tracks()
      reads this
    {
      IsRun(origin, taken) && Run(origin, taken) == db && |origin.log| <= |db.log| && origin.etags <= db.etags
    }

    /** What a command may rely on while it runs: its own transaction is as it left it. */
    ghost predicate Mine(t: TxId, tx: Tx)
      reads this
    {
      Tracks() && t in db.txs && db.txs[t] == tx && CommitsBy(db.log, |origin.log|, t) == {}
    }

    method Take(s: Step)
      requires Tracks() && Enabled(db, s)
      modifies this
      ensures Tracks() && db == Exec(old(db), s) && origin == old(origin) && taken == old(taken) + [s]
      ensures ETagRun(origin, old(taken)) && FromETag(old(db), s) ==> ETagRun(origin, taken)
    {
      RunSnoc(origin, taken, s);
      StepLog(db, s);
      db := Exec(db, s);
      taken := taken + [s];
    }

    /** The environment takes those of the offered steps that are possible and not ours. */
    method Interfere(offers: seq<Step>, t: TxId)
      requires Tracks()
      modifies this
      ensures Tracks() && origin == old(origin)
      ensures (t in db.txs <==> t in old(db.txs)) && (t in db.txs ==> db.txs[t] == old(db.txs[t]))
      ensures CommitsBy(db.log, |origin.log|, t) == old(CommitsBy(db.log, |origin.log|, t))
      ensures polite && ETagRun(origin, old(taken)) ==> ETagRun(origin, taken)
    {
      for i := 0 to |offers|
        invariant Tracks() && origin == old(origin)
        invariant (t in db.txs <==> t in old(db.txs)) && (t in db.txs ==> db.txs[t] == old(db.txs[t]))
        invariant CommitsBy(db.log, |origin.log|, t) == old(CommitsBy(db.log, |origin.log|, t))
        invariant polite && ETagRun(origin, old(taken)) ==> ETagRun(origin, taken)
      {
        var s := offers[i];
        if Enabled(db, s) && Foreign(s, t) && (polite ==> FromETag(db, s)) {
          StepLog(db, s);
          ForeignStep(db, s, t);
          ghost var log := db.log;
          Take(s);
          assert forall k | 0 <= k < |log| :: db.log[k] == log[k];
        }
      }
    }

    /** The last step was taken in this state. */
    ghost predicate JustBefore(seen: Db)
      reads this
    {
      |taken| > 0 && IsRun(origin, taken[..|taken| - 1]) && Run(origin, taken[..|taken| - 1]) == seen
    }

    /** Rolls the transaction back and reports the error. */
    method Fail(t: TxId, e: Error) returns (res: Result<Aggregate>)
      requires Tracks() && t in db.txs && CommitsBy(db.log, |origin.log|, t) == {}
      modifies this
      ensures Tracks() && origin == old(origin) && res == Err(e) && JustBefore(old(db))
      ensures t !in db.txs && CommitsBy(db.log, |origin.log|, t) == {}
      ensures polite && ETagRun(origin, old(taken)) ==> ETagRun(origin, taken)
    {
      ghost var before := taken;
      Take(Rollback(t));
      assert taken[..|taken| - 1] == before;
      res := Err(e);
    }

    /**
     Waits while others hold the row or its unique key: they go on meanwhile, until the lock is
     free or the caller's patience is at an end.
     */
    method Await(t: TxId, id: AggId, key: Option<UniqueKey>, waits: nat -> seq<Step>, patience: nat) returns (free: bool)
      requires Tracks() && t in db.txs && CommitsBy(db.log, |origin.log|, t) == {}
      modifies this
      ensures Tracks() && origin == old(origin) && CommitsBy(db.log, |origin.log|, t) == {}
      ensures t in db.txs && db.txs[t] == old(db.txs[t])
      ensures free <==> RowFree(db, t, id) && (key.Some? ==> KeyFree(db, t, key.value))
      ensures polite && ETagRun(origin, old(taken)) ==> ETagRun(origin, taken)
    {
      free := RowFree(db, t, id) && (key.Some? ==> KeyFree(db, t, key.value));
      var i := 0;
      while !free && i < patience
        invariant Tracks() && origin == old(origin) && CommitsBy(db.log, |origin.log|, t) == {}
        invariant t in db.txs && db.txs[t] == old(db.txs[t])
        invariant free <==> RowFree(db, t, id) && (key.Some? ==> KeyFree(db, t, key.value))
        invariant polite && ETagRun(origin, old(taken)) ==> ETagRun(origin, taken)
      {
        Interfere(waits(i), t);
        free := RowFree(db, t, id) && (key.Some? ==> KeyFree(db, t, key.value));
        i := i + 1;
      }
    }

    /** Runs the command on the in-memory aggregate; the caller's protocol step does the same on values. */
    method ApplyTo(a: Aggregate, c: Command, now: Time) returns (res: Result<(Aggregate, seq<Event>)>)
      requires a.Svc? <==> c.OnService?
      ensures res == Decide(a, c, now)
    {
      assert forall es: seq<Event> :: [] + es == es;
      var err;
      if a.Svc? {
        var svc := new Catalog.ServiceAggregate.Reconstitute(a.service);
        match c.onService {
          case ChangeOwnership(o) => err := svc.ChangeOwnership(o, now);
          case ChangeLifecycle(target) => err := svc.ChangeLifecycle(target, now);
          case Retire => err := svc.Retire(now);
        }
        if err.Some? { return Err(err.value); }
        var emitted := svc.PullEvents();
        return Ok((Svc(svc.View()), emitted));
      } else {
        var ten := new Tenants.TenantAggregate.Reconstitute(a.tenant);
        match c.onTenant {
          case ChangeStatus(target) => err := ten.ChangeStatus(target, now);
          case UpdateQuota(q) => err := ten.UpdateQuota(q, now);
        }
        if err.Some? { return Err(err.value); }
        var emitted := ten.PullEvents();
        return Ok((Ten(ten.View()), emitted));
      }
    }

    /** One outbox row per event, each with its own new id. */
    method OutboxRowsFor(events: seq<Event>, ids: seq<int>, createdAt: Time) returns (out: seq<OutboxRow>)
      requires |ids| == |events|
      ensures out == OutboxRows(events, ids, createdAt)
    {
      out := [];
      for i := 0 to |events|
        invariant out == OutboxRows(events[..i], ids[..i], createdAt)
      {
        out := out + [OutboxRow(ids[i], events[i], createdAt)];
        assert events[..i + 1] == events[..i] + [events[i]] && ids[..i + 1] == ids[..i] + [ids[i]];
      }
      assert events[..|events|] == events && ids[..|ids|] == ids;
    }

    /** The commit installs the write once; its acknowledgement may get lost. */
    method Commit(t: TxId, w: Write, acked: bool)
      requires t in db.txs && db.txs[t].Ready? && db.txs[t].write == w && Mine(t, db.txs[t])
      modifies this
      ensures Tracks() && origin == old(origin) && t !in db.txs
      ensures exists k :: CommitsBy(db.log, |origin.log|, t) == {k} && db.log[k].write == w
      ensures ETagRun(origin, old(taken)) ==> ETagRun(origin, taken)
    {
      ghost var log, out := db.log, db.txs[t].out;
      StepLog(db, CommitTx(t, acked));
      Take(CommitTx(t, acked));
      assert db.log == log + [CommandProtocol.Commit(t, w, out)];
      assert CommitsBy(db.log, |origin.log|, t) == {|log|};
    }

    /** From the row write on: history, outbox, commit. */
    method Finish(t: TxId, w: Write, a: Aggregate, firstId: int, env: nat -> seq<Step>, acked: bool)
      returns (res: Result<Aggregate>)
      requires t in db.txs && db.txs[t].Wrote? && db.txs[t].write == w && Mine(t, db.txs[t])
      modifies this
      ensures Tracks() && origin == old(origin) && t !in db.txs
      ensures res == if acked then Ok(a) else Err(Unavailable)
      ensures exists k :: CommitsBy(db.log, |origin.log|, t) == {k} && db.log[k].write == w
      ensures polite && ETagRun(origin, old(taken)) ==> ETagRun(origin, taken)
    {
      var start := db.txs[t].start;
      Take(RecordOwnership(t));
      Interfere(env(4), t);
      var ids := seq(|w.events|, i => firstId + i);
      var out := OutboxRowsFor(w.events, ids, start);
      Take(Append(t, ids));
      assert db.txs[t].out == out;
      Interfere(env(5), t);
      Commit(t, w, acked);
      res := if acked then Ok(a) else Err(Unavailable);
    }

    /** Begin, load the row and run the command on the aggregate it holds. */
    method LoadAndApply(t: TxId, id: AggId, expected: int, cmd: Command, env: nat -> seq<Step>)
      returns (res: Result<Aggregate>, ghost seen: Db)
      requires Tracks() && t !in db.txs && ValidCommand(cmd) && Addresses(cmd, id)
      requires CommitsBy(db.log, |origin.log|, t) == {}
      modifies this
      ensures Tracks() && origin == old(origin) && CommitsBy(db.log, |origin.log|, t) == {}
      ensures res.Err? ==> t !in db.txs && JustBefore(seen) && Explains(seen, t, id, expected, cmd, res.error)
                           && !FindsOther(seen, t, id, expected)
      ensures res.Ok? ==> t in db.txs && Decided(db.txs[t], id, expected, cmd, res.value)
      ensures polite && ETagRun(origin, old(taken)) && FromETag(old(db), BeginChange(t, id, expected, cmd)) ==> ETagRun(origin, taken)
    {
      Take(BeginChange(t, id, expected, cmd));
      Interfere(env(0), t);
      seen := db;
      if id !in db.rows {
        res := Fail(t, NotFound);
        return;
      }
      var base := db.rows[id];
      var scanned := Scan(base);
      if scanned.Err? || base.ServiceRow? != cmd.OnService? {
        res := Fail(t, DataCorruption);
        return;
      }
      Take(Load(t));
      Interfere(env(1), t);
      seen := db;
      var decided := ApplyTo(scanned.value, cmd, db.clock);
      if decided.Err? {
        res := Fail(t, decided.error);
        return;
      }
      Take(Step.Apply(t));
      Interfere(env(2), t);
      res := Ok(decided.value.0);
    }

    /**
     Read, decide, versioned update. Every outcome except Unavailable tells the truth: on Ok the
     change is committed once, computed from the row it names, over a row of the version the client
     expects; on any other error nothing is, and the state in which the command gave up explains
     the error. A row of another version, once its lock is free, is a version conflict.
     */
    method Mutate(t: TxId, id: AggId, expected: int, cmd: Command, firstId: int,
                  env: nat -> seq<Step>, waits: nat -> seq<Step>, patience: nat, acked: bool)
      returns (res: Result<Aggregate>, ghost seen: Db)
      requires t !in db.txs && ValidCommand(cmd) && Addresses(cmd, id)
      modifies this
      ensures Tracks() && origin == old(db) && t !in db.txs
      ensures res.Ok? ==> exists k :: CommitsBy(db.log, |old(db).log|, t) == {k} && Changed(db.log[k].write, id, cmd, res.value)
                                      && OverVersion(db.log[k].write, expected)
      ensures FindsOther(seen, t, id, expected) ==> res == Err(VersionConflict)
      ensures res.Ok? ==> acked
      ensures res.Err? && res.error != Unavailable ==>
                CommitsBy(db.log, |old(db).log|, t) == {} && JustBefore(seen) && Explains(seen, t, id, expected, cmd, res.error)
      ensures polite && (expected <= 0 || (id, expected) in old(db).etags) ==> ETagRun(old(db), taken)
    {
      origin, taken := db, [];
      res, seen := LoadAndApply(t, id, expected, cmd, env);
      if res.Err? {
        return;
      }
      var a, base := res.value, db.txs[t].base;
      var free := Await(t, id, None, waits, patience);
      seen := db;
      if !free {
        res := Fail(t, Unavailable);
        return;
      }
      if id !in db.rows || db.rows[id].version != ExpectedVersionOr(expected, base.version)
         || db.rows[id].ServiceRow? != a.Svc? {
        res := Fail(t, if id !in db.rows then NotFound else VersionConflict);
        return;
      }
      Take(Update(t));
      assert Changed(db.txs[t].write, id, cmd, a) && OverVersion(db.txs[t].write, expected);
      Interfere(env(3), t);
      res := Finish(t, db.txs[t].write, a, firstId, env, acked);
    }

    /** Check the name and insert the row. */
    method CheckAndInsert(t: TxId, input: NewInput, newId: int, at: Time, a: Aggregate,
                          env: nat -> seq<Step>, waits: nat -> seq<Step>, patience: nat)
      returns (err: Option<Error>, ghost seen: Db)
      requires Tracks() && t !in db.txs && Build(input, newId, at) == Ok(a) && CommitsBy(db.log, |origin.log|, t) == {}
      modifies this
      ensures Tracks() && origin == old(origin) && CommitsBy(db.log, |origin.log|, t) == {}
      ensures err.None? ==> t in db.txs && db.txs[t].Wrote? && db.txs[t].write == BirthWrite(a)
      ensures err.Some? ==> t !in db.txs && JustBefore(seen) && (err == Some(Unavailable) || (err == Some(NameConflict) && Taken(seen, a)))
      ensures I.Inv(origin) && KeyTaken(origin.rows, KeyOf(ToRow(a))) ==> err == Some(NameConflict)
      ensures polite && ETagRun(origin, old(taken)) ==> ETagRun(origin, taken)
    {
      Take(BeginCreate(t, input, newId, at));
      Interfere(env(0), t);
      var row := ToRow(a);
      seen := db;
      TakenForGood(origin, taken, KeyOf(row));
      var failed;
      if KeyTaken(db.rows, KeyOf(row)) {
        failed := Fail(t, NameConflict);
        return Some(NameConflict), seen;
      }
      Take(CheckName(t));
      Interfere(env(1), t);
      var free := Await(t, IdOf(row), Some(KeyOf(row)), waits, patience);
      seen := db;
      if !free {
        failed := Fail(t, Unavailable);
        return Some(Unavailable), seen;
      }
      if IdOf(row) in db.rows || KeyTaken(db.rows, KeyOf(row)) {
        failed := Fail(t, NameConflict);
        return Some(NameConflict), seen;
      }
      Take(Insert(t));
      Interfere(env(3), t);
      err := None;
    }

    /**
     Check the name, insert row and history, append the birth event. A name conflict is reported
     only when the id or the unique key is taken in the state in which the command gave up, and
     always when the key was taken from the start.
     */
    method Register(t: TxId, input: NewInput, newId: int, at: Time, firstId: int,
                    env: nat -> seq<Step>, waits: nat -> seq<Step>, patience: nat, acked: bool)
      returns (res: Result<Aggregate>, ghost seen: Db)
      requires t !in db.txs
      modifies this
      ensures Tracks() && origin == old(db) && t !in db.txs
      ensures var built := Build(input, newId, at);
              && (built.Err? || res.Ok? ==> res == built)
              && (built.Ok? && res.Err? && res.error != Unavailable ==>
                    res.error == NameConflict && JustBefore(seen) && InTheWay(seen, newId, input))
              && (built.Ok? && I.Inv(old(db)) && NameTaken(old(db), input) ==> res == Err(NameConflict))
      ensures res.Ok? ==>
                acked && exists k :: CommitsBy(db.log, |old(db).log|, t) == {k} && db.log[k].write == BirthWrite(res.value)
      ensures res.Err? && res.error != Unavailable ==> CommitsBy(db.log, |old(db).log|, t) == {}
      ensures polite ==> ETagRun(old(db), taken)
    {
      origin, taken, seen := db, [], db;
      var built := Build(input, newId, at);
      if built.Err? {
        return built, seen;
      }
      TakenIsInTheWay(db, newId, at, input, built.value);
      var err;
      err, seen := CheckAndInsert(t, input, newId, at, built.value, env, waits, patience);
      if err.Some? {
        TakenIsInTheWay(seen, newId, at, input, built.value);
        return Err(err.value), seen;
      }
      res := Finish(t, db.txs[t].write, built.value, firstId, env, acked);
    }
  }

  /** There is a service of that tenant and name, or a tenant of that slug. */
  ghost predicate NameTaken(db: Db, input: NewInput) {
    exists id :: id in db.rows &&
      var r := db.rows[id];
      if input.RegisterService? then r.ServiceRow? && r.tenantId == input.tenantId && r.name == Text.Trim(input.name)
      else r.TenantRow? && r.slug == Text.Trim(input.slug)
  }

  /** Or a row of the kind under the new id. */
  ghost predicate InTheWay(db: Db, newId: int, input: NewInput) {
    NameTaken(db, input) || (if input.RegisterService? then ServiceId(newId) in db.rows else TenantId(newId) in db.rows)
  }

  lemma {:induction false} TakenIsInTheWay(db: Db, newId: int, at: Time, input: NewInput, a: Aggregate)
    requires Build(input, newId, at) == Ok(a)
    ensures KeyTaken(db.rows, KeyOf(ToRow(a))) <==> NameTaken(db, input)
    ensures Taken(db, a) <==> InTheWay(db, newId, input)
  {
    if input.RegisterService? {
      BuildServiceExactly(input, newId, at);
    } else {
      BuildTenantExactly(input, newId, at);
    }
    if KeyTaken(db.rows, KeyOf(ToRow(a))) {
      var id :| id in db.rows && KeyOf(db.rows[id]) == KeyOf(ToRow(a));
      assert db.rows[id].ServiceRow? <==> input.RegisterService?;
    }
  }

  /** The id or the unique key of the aggregate is in the table. */
  predicate Taken(db: Db, a: Aggregate) { IdOf(ToRow(a)) in db.rows || KeyTaken(db.rows, KeyOf(ToRow(a))) }

  /** Why a change was refused, as the state in which it gave up shows it. */
  ghost predicate Explains(seen: Db, t: TxId, id: AggId, expected: int, cmd: Command, e: Error) {
    || (e == NotFound && id !in seen.rows)
    || (e == DataCorruption && id in seen.rows && (Scan(seen.rows[id]).Err? || seen.rows[id].ServiceRow? != cmd.OnService?))
    || (t in seen.txs && seen.txs[t].Loaded? && Refuses(seen.txs[t].base, cmd, seen.clock, e))
    || (e == VersionConflict && t in seen.txs && seen.txs[t].Applied? && id in seen.rows
        && (seen.rows[id].version != (if expected > 0 then expected else seen.txs[t].base.version)
            || seen.rows[id].ServiceRow? != seen.txs[t].agg.Svc?))
    || e == Unavailable
  }

  /** The row that was overwritten had the version the client sent, or without one the version that was read. */
  ghost predicate OverVersion(w: Write, expected: int) {
    && w.base.Some? && w.replaced.Some?
    && w.replaced.value.version == if expected > 0 then expected else w.base.value.version
  }

  /** The transaction is about to update, the lock is free, and the row has another version than it looks for. */
  ghost predicate FindsOther(seen: Db, t: TxId, id: AggId, expected: int) {
    && t in seen.txs && seen.txs[t].Applied? && RowFree(seen, t, id) && id in seen.rows
    && (if expected > 0 then seen.rows[id].version != expected else seen.rows[id].version != seen.txs[t].base.version)
  }

  /** The row that was read does not allow the command. */
  ghost predicate Refuses(base: Row, cmd: Command, now: Time, e: Error) {
    Scan(base).Ok? && (base.ServiceRow? <==> cmd.OnService?) && Decide(Scan(base).value, cmd, now) == Err(e)
  }

  /** Applied, and nothing else: the aggregate is what the command makes of the row that was read. */
  ghost predicate Decided(tx: Tx, id: AggId, expected: int, cmd: Command, a: Aggregate) {
    && tx.Applied? && tx.id == id && tx.expected == expected && tx.cmd == cmd && tx.agg == a
    && Scan(tx.base).Ok? && (tx.base.ServiceRow? <==> cmd.OnService?)
    && Decide(Scan(tx.base).value, cmd, tx.now) == Ok((a, tx.events))
  }

  /** The logged change is that command, decided on the row it names as its base. */
  ghost predicate Changed(w: Write, id: AggId, cmd: Command, a: Aggregate) {
    && w.op.Change? && w.op.id == id && w.op.cmd == cmd && w.base.Some? && w.replaced.Some?
    && Scan(w.base.value).Ok? && (w.base.value.ServiceRow? <==> cmd.OnService?)
    && Decide(Scan(w.base.value).value, cmd, w.op.now) == Ok((a, w.events))
    && (w.replaced.value.ServiceRow? <==> a.Svc?) && w.row == WriteBack(w.replaced.value, a)
  }
}
