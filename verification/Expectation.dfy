/**
 How far an If-Match version can be trusted. The update tests the client's number while the new
 content was computed from the row read earlier, so a version from the future can lose an update.
 The theorem gives the exact condition on the number a client sends.
 */
module Expectation {
  import opened Wrappers
  import opened Events
  import opened Aggregates
  import opened CommandProtocol
  import opened CommandSafety
  import opened CommandLog
  import opened CommandRuns
  import opened Paths
  import opened SoloSteps
  import I = CommandIdentity
  import Catalog = CatalogDomain
  import Tenants = TenantDomain

  /** Some committed change replaced a row other than the one it was computed from. */
  ghost predicate LostUpdate(db: Db) {
    exists k :: 0 <= k < |db.log| && db.log[k].write.op.Change? && db.log[k].write.base != db.log[k].write.replaced
  }

  /** A command that every non-final aggregate of the kind accepts. */
  function Always(id: AggId): Command {
    if id.ServiceId? then OnService(Catalog.ChangeOwnership(Catalog.Ownership("a", "b")))
    else OnTenant(Tenants.UpdateQuota(0))
  }

  lemma {:induction false} AlwaysAccepted(r: Row, now: Time)
    requires Stored(r) && !Terminal(r)
    ensures ValidCommand(Always(IdOf(r))) && Addresses(Always(IdOf(r)), IdOf(r))
    ensures Decide(Scan(r).value, Always(IdOf(r)), now).Ok?
    ensures var (a, events) := Decide(Scan(r).value, Always(IdOf(r)), now).value;
            Advances(r, ToRow(a), events, now) && WriteBack(r, a) == ToRow(a)
            && ToRow(a).version == r.version + 1 && !Terminal(ToRow(a)) && |events| == 1
  {
    DecideAdvances(r, Always(IdOf(r)), now);
  }

  ghost predicate Moved(db: Db, s: Step, db': Db) { Enabled(db, s) && Modest(s) && Exec(db, s) == db' }

  /** Clients that begin a change without a version. */
  predicate Modest(s: Step) { s.BeginChange? ==> s.expected <= 0 }

  /** A run by such clients. */
  ghost predicate Goes(db: Db, steps: seq<Step>, db': Db) { Path(Moved, db, steps, db') }

  lemma {:induction false} GoesIsRun(db: Db, steps: seq<Step>, db': Db)
    requires Goes(db, steps, db')
    ensures SafeRun(db, steps) && ETagRun(db, steps) && IsRun(db, steps) && Run(db, steps) == db'
    decreases |steps|
  {
    if steps != [] {
      var mid :| Moved(db, steps[0], mid) && Path(Moved, mid, steps[1..], db');
      GoesIsRun(mid, steps[1..], db');
    }
  }

  ghost predicate Leads(db: Db, db': Db) { exists steps :: Goes(db, steps, db') }

  lemma {:induction false} Still(db: Db)
    ensures Leads(db, db)
  {
    assert Goes(db, [], db);
  }

  lemma {:induction false} Moves(db: Db, s: Step)
    requires Enabled(db, s) && Modest(s)
    ensures Leads(db, Exec(db, s))
  {
    assert Moved(db, s, Exec(db, s)) && Path(Moved, Exec(db, s), [s][1..], Exec(db, s));
    assert Goes(db, [s], Exec(db, s));
  }

  lemma {:induction false} LeadsOn(db: Db, mid: Db, db': Db)
    requires Leads(db, mid) && Leads(mid, db')
    ensures Leads(db, db')
  {
    var steps :| Goes(db, steps, mid);
    var more :| Goes(mid, more, db');
    PathThen(Moved, db, steps, mid, more, db');
    assert Goes(db, steps + more, db');
  }

  /** The row is there, well formed, not final, and nobody holds its lock. */
  ghost predicate Open(db: Db, id: AggId) {
    && id in db.rows && Stored(db.rows[id]) && IdOf(db.rows[id]) == id && !Terminal(db.rows[id])
    && forall u | u in db.txs && db.txs[u].Writes() :: IdOf(db.txs[u].write.row) != id
  }

  /** From the versioned update to the appended events. */
  lemma {:induction false} RecordAndAppend(db: Db, t: TxId) returns (tx: Tx)
    requires t in db.txs && db.txs[t].Wrote?
    ensures Leads(db, Become(db, t, tx)) && tx.Ready? && tx.write == db.txs[t].write
  {
    var wrote := db.txs[t];
    var recorded := Recorded(wrote.start, wrote.write, ViewOf(db.history, wrote.write));
    var ids := seq(|wrote.write.events|, i => i);
    tx := Ready(wrote.start, wrote.write, recorded.view, OutboxRows(wrote.write.events, ids, wrote.start));
    Moves(db, RecordOwnership(t));
    BecomeTwice(db, t, recorded, tx);
    Moves(Become(db, t, recorded), Append(t, ids));
    LeadsOn(db, Become(db, t, recorded), Become(db, t, tx));
  }

  /** From the versioned update on: write the history, append the events, commit. */
  lemma {:induction false} FinishWrite(db: Db, t: TxId) returns (db': Db)
    requires t in db.txs && db.txs[t].Wrote?
    ensures Leads(db, db') && Committed(db, db', t, db.txs[t].write)
  {
    var tx := RecordAndAppend(db, t);
    var ready := Become(db, t, tx);
    db' := Exec(ready, CommitTx(t, true));
    Moves(ready, CommitTx(t, true));
    LeadsOn(db, ready, db');
    assert db'.txs == db.txs - {t};
  }

  ghost predicate Committed(db: Db, db': Db, t: TxId, w: Write) {
    && db'.rows == db.rows[IdOf(w.row) := w.row] && db'.txs == db.txs - {t} && db'.clock == db.clock
    && |db'.log| == |db.log| + 1 && db'.log[|db.log|].write == w
  }

  /** The aggregate as the next version of a row that can still change. */
  ghost predicate NextOf(base: Row, a: Aggregate) {
    && base.ServiceRow? == a.Svc? && WriteBack(base, a) == ToRow(a) && IdOf(ToRow(a)) == IdOf(base)
    && Stored(ToRow(a)) && !Terminal(ToRow(a)) && ToRow(a).version == base.version + 1
  }

  /** What a change computed from `base` and written over `found` looks like. */
  ghost predicate Overwrites(w: Write, base: Row, found: Row) {
    && w.op.Change? && w.base == Some(base) && w.replaced == Some(found)
    && (base == found ==> IdOf(w.row) == IdOf(base) && Stored(w.row) && !Terminal(w.row) && w.row.version == base.version + 1)
  }

  lemma {:induction false} AlwaysNext(r: Row, now: Time)
    requires Stored(r) && !Terminal(r)
    ensures Decide(Scan(r).value, Always(IdOf(r)), now).Ok? && NextOf(r, Decide(Scan(r).value, Always(IdOf(r)), now).value.0)
  {
    AlwaysAccepted(r, now);
  }

  /** A loaded transaction decides on the row it read. */
  lemma {:induction false} ApplyOnce(db: Db, t: TxId, tx: Tx) returns (tx': Tx)
    requires t in db.txs && db.txs[t] == tx && tx.Loaded?
    requires Stored(tx.base) && !Terminal(tx.base) && IdOf(tx.base) == tx.id && tx.cmd == Always(tx.id)
    ensures Leads(db, Become(db, t, tx'))
    ensures tx'.Applied? && (tx'.start, tx'.id, tx'.expected, tx'.base) == (tx.start, tx.id, tx.expected, tx.base)
    ensures NextOf(tx.base, tx'.agg)
  {
    AlwaysNext(tx.base, db.clock);
    var (a, events) := Decide(Scan(tx.base).value, tx.cmd, db.clock).value;
    tx' := Applied(tx.start, tx.id, tx.expected, tx.cmd, tx.base, db.clock, a, events);
    assert Exec(db, Step.Apply(t)) == Become(db, t, tx');
    Moves(db, Step.Apply(t));
  }

  /** Then it passes the version test, whatever row of that version is there by now. */
  lemma {:induction false} UpdateOnce(db: Db, t: TxId, tx: Tx) returns (w: Write)
    requires tx.Applied? && Open(db, tx.id) && NextOf(tx.base, tx.agg) && IdOf(tx.base) == tx.id && (t in db.txs ==> !db.txs[t].Writes())
    requires db.rows[tx.id].version == ExpectedVersionOr(tx.expected, tx.base.version)
    ensures Leads(Become(db, t, tx), Become(db, t, Wrote(tx.start, w))) && Overwrites(w, tx.base, db.rows[tx.id])
  {
    var found := db.rows[tx.id];
    w := Write(Change(tx.id, tx.cmd, tx.now), Some(tx.base), Some(found), WriteBack(found, tx.agg), tx.events);
    BecomeTwice(db, t, tx, Wrote(tx.start, w));
    assert Exec(Become(db, t, tx), Update(t)) == Become(db, t, Wrote(tx.start, w));
    Moves(Become(db, t, tx), Update(t));
  }

  /** From the loaded transaction to its write. */
  lemma {:induction false} ApplyAndUpdate(db: Db, t: TxId, tx: Tx) returns (w: Write)
    requires t in db.txs && db.txs[t] == tx && tx.Loaded? && Open(db, tx.id)
    requires Stored(tx.base) && !Terminal(tx.base) && IdOf(tx.base) == tx.id && tx.cmd == Always(tx.id)
    requires db.rows[tx.id].version == ExpectedVersionOr(tx.expected, tx.base.version)
    ensures Leads(db, Become(db, t, Wrote(tx.start, w))) && Overwrites(w, tx.base, db.rows[tx.id])
  {
    var applied := ApplyOnce(db, t, tx);
    w := UpdateOnce(db, t, applied);
    LeadsOn(db, Become(db, t, applied), Become(db, t, Wrote(tx.start, w)));
  }

  /** From the loaded transaction to its commit. */
  lemma {:induction false} Finish(db: Db, t: TxId, tx: Tx) returns (db': Db, w: Write)
    requires t in db.txs && db.txs[t] == tx && tx.Loaded? && Open(db, tx.id)
    requires Stored(tx.base) && !Terminal(tx.base) && IdOf(tx.base) == tx.id && tx.cmd == Always(tx.id)
    requires db.rows[tx.id].version == ExpectedVersionOr(tx.expected, tx.base.version)
    ensures Leads(db, db') && Committed(db, db', t, w) && Overwrites(w, tx.base, db.rows[tx.id])
  {
    w := ApplyAndUpdate(db, t, tx);
    var mid := Become(db, t, Wrote(tx.start, w));
    db' := FinishWrite(mid, t);
    LeadsOn(db, mid, db');
    CommittedSince(db, t, Wrote(tx.start, w), db', w);
  }

  lemma {:induction false} StaysOpen(db: Db, t: TxId, tx: Tx, id: AggId)
    requires Open(db, id) && !tx.Writes()
    ensures Open(Become(db, t, tx), id)
  {
  }

  lemma {:induction false} CommittedSince(db: Db, t: TxId, tx: Tx, db': Db, w: Write)
    requires Committed(Become(db, t, tx), db', t, w)
    ensures Committed(db, db', t, w)
  {
    assert db.txs[t := tx] - {t} == db.txs - {t};
  }

  lemma {:induction false} AlwaysValid(id: AggId)
    ensures ValidCommand(Always(id)) && Addresses(Always(id), id)
  {
  }

  lemma {:induction false} BeginOnce(db: Db, t: TxId, id: AggId, e: int)
    requires t !in db.txs
    ensures Enabled(db, BeginChange(t, id, e, Always(id)))
    ensures Exec(db, BeginChange(t, id, e, Always(id))) == Become(db, t, Begun(db.clock, id, e, Always(id)))
  {
    AlwaysValid(id);
  }

  function LoadedFrom(tx: Tx, base: Row): Tx
    requires tx.Begun?
  {
    Loaded(tx.start, tx.id, tx.expected, tx.cmd, base)
  }

  lemma {:induction false} LoadOnce(db: Db, t: TxId, tx: Tx)
    requires tx.Begun? && tx.id in db.rows && Stored(db.rows[tx.id])
    ensures Leads(Become(db, t, tx), Become(db, t, LoadedFrom(tx, db.rows[tx.id])))
  {
    Moves(Become(db, t, tx), Load(t));
    assert db.txs[t := tx][t := LoadedFrom(tx, db.rows[tx.id])] == db.txs[t := LoadedFrom(tx, db.rows[tx.id])];
  }

  /** Somebody else updates the row once, without an expected version. */
  lemma {:induction false} Bump(db: Db, u: TxId, id: AggId) returns (db': Db)
    requires Open(db, id) && u !in db.txs
    ensures Leads(db, db') && Open(db', id)
    ensures db'.rows[id].version == db.rows[id].version + 1 && db'.txs == db.txs
  {
    var begun := Begun(db.clock, id, 0, Always(id));
    var tx := LoadedFrom(begun, db.rows[id]);
    var d2 := Become(db, u, tx);
    LoadOnce(db, u, begun);
    BeginOnce(db, u, id, 0);
    Moves(db, BeginChange(u, id, 0, Always(id)));
    LeadsOn(db, Exec(db, BeginChange(u, id, 0, Always(id))), d2);
    StaysOpen(db, u, tx, id);
    var w;
    db', w := Finish(d2, u, tx);
    LeadsOn(db, d2, db');
    OpenAgain(db, u, tx, id, db', w);
  }

  lemma {:induction false} OpenAgain(db: Db, u: TxId, tx: Tx, id: AggId, db': Db, w: Write)
    requires Open(db, id) && u !in db.txs && Committed(Become(db, u, tx), db', u, w)
    requires IdOf(w.row) == id && Stored(w.row) && !Terminal(w.row)
    ensures Open(db', id) && db'.txs == db.txs && db'.rows[id] == w.row
  {
    assert db.txs[u := tx] - {u} == db.txs;
  }

  lemma {:induction false} Bumps(db: Db, u: TxId, id: AggId, n: nat) returns (db': Db)
    requires Open(db, id) && u !in db.txs
    ensures Leads(db, db') && Open(db', id)
    ensures db'.rows[id].version == db.rows[id].version + n && db'.txs == db.txs
    decreases n
  {
    db' := db;
    Still(db);
    if n > 0 {
      var mid := Bump(db, u, id);
      db' := Bumps(mid, u, id, n - 1);
      LeadsOn(db, mid, db');
    }
  }

  lemma {:induction false} FreshTx(db: Db) returns (u: TxId)
    ensures u !in db.txs
  {
    u := Above(db.txs.Keys);
  }

  lemma {:induction false} Above(s: set<int>) returns (top: int)
    ensures forall x | x in s :: x < top
  {
    top := 0;
    if x :| x in s {
      var m := Above(s - {x});
      top := if m <= x then x + 1 else m;
      assert forall y | y in s && y != x :: y in s - {x};
    }
  }

  /** Nobody holds the row's lock after at most one rollback. */
  lemma {:induction false} FreeTheRow(db: Db, id: AggId, t: TxId) returns (db': Db)
    requires id in db.rows && Stored(db.rows[id]) && IdOf(db.rows[id]) == id && !Terminal(db.rows[id])
    requires I.Exclusive(db.txs) && t in db.txs && !db.txs[t].Writes()
    ensures Leads(db, db') && Open(db', id) && db'.rows == db.rows && t in db'.txs && db'.txs[t] == db.txs[t]
  {
    db' := db;
    Still(db);
    if u :| u in db.txs && db.txs[u].Writes() && IdOf(db.txs[u].write.row) == id {
      Moves(db, Rollback(u));
      db' := Drop(db, u);
    }
  }

  lemma {:induction false} BumpAndFinish(db: Db, t: TxId, tx: Tx) returns (db': Db)
    requires t in db.txs && db.txs[t] == tx && tx.Loaded? && tx.cmd == Always(tx.id) && Open(db, tx.id) && tx.base == db.rows[tx.id]
    requires tx.expected > 0 && tx.expected > tx.base.version
    ensures Leads(db, db') && LostUpdate(db')
  {
    var u := FreshTx(db);
    var mid := Bumps(db, u, tx.id, tx.expected - tx.base.version);
    var w;
    db', w := Finish(mid, t, tx);
    LeadsOn(db, mid, db');
    LostBy(mid, db', t, w, tx.base, mid.rows[tx.id]);
  }

  /** Others bring a loaded client's row to any later version, and the client overwrites it. */
  lemma {:induction false} Overtake(db: Db, t: TxId, tx: Tx, id: AggId) returns (db': Db)
    requires t in db.txs && db.txs[t] == tx && tx.Loaded? && tx.id == id && tx.cmd == Always(id) && I.Exclusive(db.txs)
    requires id in db.rows && tx.base == db.rows[id] && Stored(tx.base) && IdOf(tx.base) == id && !Terminal(tx.base)
    requires tx.expected > 0 && tx.expected > tx.base.version
    ensures Leads(db, db') && LostUpdate(db')
  {
    var mid := FreeTheRow(db, id, t);
    db' := BumpAndFinish(mid, t, tx);
    LeadsOn(db, mid, db');
  }

  lemma {:induction false} LostBy(db: Db, db': Db, t: TxId, w: Write, base: Row, found: Row)
    requires Committed(db, db', t, w) && Overwrites(w, base, found) && base != found
    ensures LostUpdate(db')
  {
    assert db'.log[|db.log|].write.base != db'.log[|db.log|].write.replaced;
  }

  /**
   A client that begins with a version beyond the committed one of a row that can still change:
   others bring the row to that version, and the client then overwrites what they wrote.
   */
  lemma {:induction false} GuessLosesUpdate(db: Db, t: TxId, id: AggId, e: int) returns (after: seq<Step>)
    requires Inv(db) && id in db.rows && t !in db.txs && !SafeExpectation(db.rows, id, e)
    ensures Enabled(db, BeginChange(t, id, e, Always(id)))
    ensures var begun := Exec(db, BeginChange(t, id, e, Always(id)));
            SafeRun(begun, after) && IsRun(begun, after) && LostUpdate(Run(begun, after))
  {
    assert RowOk(id, db.rows[id]);
    BeginOnce(db, t, id, e);
    var begun := Begun(db.clock, id, e, Always(id));
    var tx := LoadedFrom(begun, db.rows[id]);
    var d2 := Become(db, t, tx);
    LoadOnce(db, t, begun);
    var d1 := Exec(db, BeginChange(t, id, e, Always(id)));
    var last := Overtake(d2, t, tx, id);
    LeadsOn(d1, d2, last);
    after :| Goes(d1, after, last);
    GoesIsRun(d1, after, last);
  }

  // --- Aggregates that are created while the client waits ---

  /** Everybody else gives up. */
  lemma {:induction false} ClearOthers(db: Db, t: TxId) returns (db': Db)
    requires t in db.txs
    ensures Leads(db, db') && db' == db.(txs := map[t := db.txs[t]])
    decreases |db.txs|
  {
    db' := db;
    Still(db);
    if u :| u in db.txs && u != t {
      Moves(db, Rollback(u));
      assert Drop(db, u).txs.Keys == db.txs.Keys - {u};
      assert |Drop(db, u).txs.Keys| < |db.txs.Keys|;
      db' := ClearOthers(Drop(db, u), t);
      LeadsOn(db, Drop(db, u), db');
    } else {
      var only := map[t := db.txs[t]];
      assert forall u :: u in db.txs <==> u in only;
      assert db.txs == only;
    }
  }

  /** An input that creates an aggregate under this id, with a unique key nobody has. */
  lemma {:induction false} SomeInput(rows: map<AggId, Row>, id: AggId, at: Time) returns (input: NewInput, a: Aggregate)
    requires Creatable(rows, id)
    ensures Build(input, id.n, at) == Ok(a) && IdOf(ToRow(a)) == id && !KeyTaken(rows, KeyOf(ToRow(a)))
  {
    if id.ServiceId? {
      var tenants := set i | i in rows && rows[i].ServiceRow? :: rows[i].tenantId;
      var tenant := Above(tenants);
      input, a := ServiceInput(id, at, tenant);
      forall i | i in rows ensures KeyOf(rows[i]) != KeyOf(ToRow(a)) {
        assert rows[i].ServiceRow? ==> rows[i].tenantId in tenants;
      }
    } else {
      var slug :| FreeSlug(rows, slug);
      input, a := TenantInput(id, at, slug);
    }
  }

  lemma {:induction false} ServiceInput(id: AggId, at: Time, tenant: int) returns (input: NewInput, a: Aggregate)
    requires id.ServiceId?
    ensures Build(input, id.n, at) == Ok(a) && IdOf(ToRow(a)) == id && KeyOf(ToRow(a)) == TenantAndName(tenant, "a")
  {
    input := RegisterService(tenant, "a", "", 1, "", "a", "b");
    Catalog.NameFixed("a");
    Catalog.OwnershipFixed(Catalog.Ownership("a", "b"));
    a := Build(input, id.n, at).value;
  }

  lemma {:induction false} TenantInput(id: AggId, at: Time, slug: string) returns (input: NewInput, a: Aggregate)
    requires id.TenantId? && Tenants.CanonicalSlug(slug)
    ensures Build(input, id.n, at) == Ok(a) && IdOf(ToRow(a)) == id && KeyOf(ToRow(a)) == SlugOnly(slug)
  {
    input := CreateTenant("a", slug, "free", 0);
    Tenants.NameFixed("a");
    Tenants.SlugFixed(slug);
    a := Build(input, id.n, at).value;
  }

  lemma {:induction false} InsertOnce(db: Db, u: TxId, input: NewInput, n: int, a: Aggregate)
    requires Room(db, u, a) && Build(input, n, db.clock) == Ok(a)
    ensures Leads(db, Become(db, u, Wrote(db.clock, BirthWrite(a))))
  {
    var d1, d2 := Become(db, u, Creating(db.clock, a)), Become(db, u, Checked(db.clock, a));
    Moves(db, BeginCreate(u, input, n, db.clock));
    CheckAlone(db, u, a);
    Moves(d1, CheckName(u));
    LeadsOn(db, d1, d2);
    InsertAlone(db, u, a);
    Moves(d2, Insert(u));
    LeadsOn(db, d2, Become(db, u, Wrote(db.clock, BirthWrite(a))));
  }

  /** Somebody creates the aggregate. */
  lemma {:induction false} CreateOnce(db: Db, u: TxId, input: NewInput, n: int, a: Aggregate) returns (db': Db)
    requires Room(db, u, a) && Build(input, n, db.clock) == Ok(a)
    ensures Leads(db, db') && db'.rows == db.rows[IdOf(ToRow(a)) := ToRow(a)] && db'.txs == db.txs
  {
    InsertOnce(db, u, input, n, a);
    var mid := Become(db, u, Wrote(db.clock, BirthWrite(a)));
    db' := FinishWrite(mid, u);
    LeadsOn(db, mid, db');
    OnlyCommitted(db, u, Wrote(db.clock, BirthWrite(a)), db', BirthWrite(a));
  }

  lemma {:induction false} OnlyCommitted(db: Db, u: TxId, tx: Tx, db': Db, w: Write)
    requires u !in db.txs && Committed(Become(db, u, tx), db', u, w)
    ensures db'.rows == db.rows[IdOf(w.row) := w.row] && db'.txs == db.txs
  {
    assert db.txs[u := tx] - {u} == db.txs;
  }

  /** The only transaction there is reads the row. */
  lemma {:induction false} ReadAlone(db: Db, t: TxId, begun: Tx)
    requires db.txs == map[t := begun] && begun.Begun? && begun.id in db.rows && Stored(db.rows[begun.id])
    ensures var db' := db.(txs := map[t := LoadedFrom(begun, db.rows[begun.id])]); Leads(db, db')
  {
    var tx := LoadedFrom(begun, db.rows[begun.id]);
    OnlyOne(t, begun, begun);
    OnlyOne(t, begun, tx);
    LoadOnce(db, t, begun);
  }

  lemma {:induction false} OnlyOne(t: TxId, tx: Tx, tx': Tx)
    ensures map[t := tx][t := tx'] == map[t := tx']
  {
  }

  lemma {:induction false} NewbornOpen(a: Aggregate, input: NewInput, n: int, at: Time)
    requires Build(input, n, at) == Ok(a)
    ensures Stored(ToRow(a)) && !Terminal(ToRow(a)) && ToRow(a).version == 1
  {
    BuildIsValid(input, n, at);
  }

  /** The client waits, the aggregate appears, and the client reads its first version. */
  lemma {:induction false} CreatedMeanwhile(db: Db, t: TxId, begun: Tx) returns (db': Db, tx: Tx)
    requires db.txs == map[t := begun] && begun.Begun? && Creatable(db.rows, begun.id)
    ensures Leads(db, db') && db'.txs == map[t := tx] && begun.id in db'.rows
    ensures tx == LoadedFrom(begun, db'.rows[begun.id])
    ensures var r := db'.rows[begun.id]; Stored(r) && IdOf(r) == begun.id && !Terminal(r) && r.version == 1
  {
    var input, a := SomeInput(db.rows, begun.id, db.clock);
    NewbornOpen(a, input, begun.id.n, db.clock);
    var u := FreshTx(db);
    var mid := CreateOnce(db, u, input, begun.id.n, a);
    ReadAlone(mid, t, begun);
    tx := LoadedFrom(begun, ToRow(a));
    db' := mid.(txs := map[t := tx]);
    LeadsOn(db, mid, db');
  }

  lemma {:induction false} CreatedThenOvertaken(db: Db, t: TxId, begun: Tx) returns (db': Db)
    requires t in db.txs && db.txs[t] == begun && begun.Begun? && begun.cmd == Always(begun.id)
    requires Creatable(db.rows, begun.id) && begun.expected > 1
    ensures Leads(db, db') && LostUpdate(db')
  {
    var alone := ClearOthers(db, t);
    var there, tx := CreatedMeanwhile(alone, t, begun);
    LeadsOn(db, alone, there);
    db' := Overtake(there, t, tx, begun.id);
    LeadsOn(db, there, db');
  }

  /** A client that names a second version of an aggregate that can still be created. */
  lemma {:induction false} LateGuessLosesUpdate(db: Db, t: TxId, id: AggId, e: int) returns (after: seq<Step>)
    requires t !in db.txs && Creatable(db.rows, id) && e > 1
    ensures Enabled(db, BeginChange(t, id, e, Always(id)))
    ensures var begun := Exec(db, BeginChange(t, id, e, Always(id)));
            SafeRun(begun, after) && IsRun(begun, after) && LostUpdate(Run(begun, after))
  {
    BeginOnce(db, t, id, e);
    var d1 := Become(db, t, Begun(db.clock, id, e, Always(id)));
    var last := CreatedThenOvertaken(d1, t, Begun(db.clock, id, e, Always(id)));
    after :| Goes(d1, after, last);
    GoesIsRun(d1, after, last);
  }

  /**
   The exact condition. A number is safe to send, whatever the other clients do within theirs, if
   and only if it is not positive; or, for an aggregate that is there, not beyond its committed
   version, or the row is final; or, for one that is not, not beyond the first version, or no
   unique key is left to create it with.
   */
  lemma {:induction false} ExpectationExact(db: Db, t: TxId, id: AggId, e: int)
    requires Reachable(db) && t !in db.txs
    ensures SafeExpectation(db.rows, id, e) <==> NeverLoses(db, t, id, e)
  {
    ReachableInv(db);
    if SafeExpectation(db.rows, id, e) {
      forall cmd, after | StartsAndRuns(db, t, id, e, cmd, after)
        ensures !LostUpdate(Run(Exec(db, BeginChange(t, id, e, cmd)), after))
      {
        var begin := BeginChange(t, id, e, cmd);
        StepKeepsInv(db, begin);
        RunKeepsInv(Exec(db, begin), after);
        var last := Run(Exec(db, begin), after);
        forall k | 0 <= k < |last.log| && last.log[k].write.op.Change?
          ensures last.log[k].write.base == last.log[k].write.replaced
        {
          NoLostUpdateInLog(last.log, k);
        }
      }
    } else {
      var after;
      if id in db.rows {
        after := GuessLosesUpdate(db, t, id, e);
      } else {
        after := LateGuessLosesUpdate(db, t, id, e);
      }
      assert StartsAndRuns(db, t, id, e, Always(id), after);
    }
  }

  ghost predicate StartsAndRuns(db: Db, t: TxId, id: AggId, e: int, cmd: Command, after: seq<Step>) {
    && Enabled(db, BeginChange(t, id, e, cmd))
    && SafeRun(Exec(db, BeginChange(t, id, e, cmd)), after)
    && IsRun(Exec(db, BeginChange(t, id, e, cmd)), after)
  }

  ghost predicate NeverLoses(db: Db, t: TxId, id: AggId, e: int) {
    forall cmd, after | StartsAndRuns(db, t, id, e, cmd, after) ::
      !LostUpdate(Run(Exec(db, BeginChange(t, id, e, cmd)), after))
  }
}
