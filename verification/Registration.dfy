/**
 Registration requests with an Idempotency-Key: look the key up, register, save the response,
 answer. Any number of requests interleave with each other and with all other commands, whatever
 versions the clients of those send.
 */
module Registration {
  import opened Wrappers
  import opened Events
  import opened Aggregates
  import C = CommandProtocol
  import I = CommandIdentity

  /** A request, from its arrival to its answer; the response is the row as it was registered. */
  datatype Request =
    | Received(key: string, body: NewInput)
    | Missed(key: string, body: NewInput)
    | Running(key: string, body: NewInput, tx: C.TxId)
    | Registered(key: string, body: NewInput, response: Row)
    | Finished

  /** A 201 answer to a request that came with this key and body. */
  datatype Answer = Answer(key: string, body: NewInput, response: Row, replayed: bool)

  datatype World = World(db: C.Db, idem: map<string, Row>, requests: map<int, Request>, answers: seq<Answer>)

  const EmptyWorld := World(C.EmptyDb, map[], map[], [])

  datatype Step =
    | Receive(req: int, key: string, body: NewInput)
    | Lookup(req: int)
    | Begin(req: int, tx: C.TxId, newId: int, at: Time)
    | Command(step: C.Step)
    | Commit(req: int)
    | Fail(req: int)
    | Respond(req: int, saved: bool)

  /** A transaction belongs to at most one request. */
  predicate Owned(w: World, tx: C.TxId) {
    exists q :: q in w.requests && w.requests[q].Running? && w.requests[q].tx == tx
  }

  /** What other clients may do: anything but take over a request's transaction or its acknowledgement. */
  predicate Foreign(w: World, s: C.Step) {
    match s
    case BeginChange(t, _, _, _) => !Owned(w, t)
    case BeginCreate(t, _, _, _) => !Owned(w, t)
    case CommitTx(t, acked) => !(acked && Owned(w, t))
    case _ => true
  }

  predicate Enabled(w: World, s: Step) {
    match s
    case Receive(q, key, body) => q !in w.requests && body.RegisterService?
    case Lookup(q) => q in w.requests && w.requests[q].Received?
    case Begin(q, t, newId, at) =>
      q in w.requests && w.requests[q].Missed? && !Owned(w, t) && C.Enabled(w.db, C.BeginCreate(t, w.requests[q].body, newId, at))
    case Command(c) => C.Enabled(w.db, c) && Foreign(w, c)
    case Commit(q) => q in w.requests && w.requests[q].Running? && C.Enabled(w.db, C.CommitTx(w.requests[q].tx, true))
    case Fail(q) => q in w.requests
    case Respond(q, _) => q in w.requests && w.requests[q].Registered?
  }

  function Become(w: World, q: int, r: Request): World { w.(requests := w.requests[q := r]) }

  /** The first saved response wins; saving may fail, and the answer goes out all the same. */
  function Exec(w: World, s: Step): World
    requires Enabled(w, s)
  {
    match s
    case Receive(q, key, body) => Become(w, q, Received(key, body))
    case Lookup(q) =>
      var r := w.requests[q];
      if r.key != "" && r.key in w.idem
      then Become(w, q, Finished).(answers := w.answers + [Answer(r.key, r.body, w.idem[r.key], true)])
      else Become(w, q, Missed(r.key, r.body))
    case Begin(q, t, newId, at) =>
      var r := w.requests[q];
      Become(w, q, Running(r.key, r.body, t)).(db := C.Exec(w.db, C.BeginCreate(t, r.body, newId, at)))
    case Command(c) => w.(db := C.Exec(w.db, c))
    case Commit(q) =>
      var r := w.requests[q];
      Become(w, q, Registered(r.key, r.body, w.db.txs[r.tx].write.row)).(db := C.Exec(w.db, C.CommitTx(r.tx, true)))
    case Fail(q) => Become(w, q, Finished)
    case Respond(q, saved) =>
      var r := w.requests[q];
      Become(w, q, Finished).(
        idem := if saved && r.key != "" && r.key !in w.idem then w.idem[r.key := r.response] else w.idem,
        answers := w.answers + [Answer(r.key, r.body, r.response, false)])
  }

  /** Which bodies clients send with which key. */
  type Sent = (string, NewInput) -> bool

  predicate Keeps(sent: Sent, s: Step) { s.Receive? ==> sent(s.key, s.body) }

  ghost predicate IsRun(sent: Sent, w: World, steps: seq<Step>)
    decreases |steps|
  {
    steps == [] || (Enabled(w, steps[0]) && Keeps(sent, steps[0]) && IsRun(sent, Exec(w, steps[0]), steps[1..]))
  }

  ghost function Run(sent: Sent, w: World, steps: seq<Step>): World
    requires IsRun(sent, w, steps)
    decreases |steps|
  {
    if steps == [] then w else Run(sent, Exec(w, steps[0]), steps[1..])
  }

  // --- What a body asks for ---

  /** The row is the one this body describes. */
  predicate FromBody(body: NewInput, row: Row) {
    body.RegisterService? && Build(body, row.id, row.createdAt).Ok? && ToRow(Build(body, row.id, row.createdAt).value) == row
  }

  predicate Accepted(body: NewInput) { body.RegisterService? && Build(body, 0, 0).Ok? }

  /** The unique key of the service a body registers. */
  function KeyFor(body: NewInput): UniqueKey
    requires Accepted(body)
  {
    KeyOf(ToRow(Build(body, 0, 0).value))
  }

  /** The body as validation leaves it. */
  function Canonical(body: NewInput): NewInput
    requires Accepted(body)
  {
    var s := Build(body, 0, 0).value.service;
    RegisterService(s.tenant, s.name, s.description, s.tier, s.repository, s.owner.team, s.owner.onCall)
  }

  lemma {:induction false} BuildFits(body: NewInput, id: int, at: Time)
    requires body.RegisterService? && Build(body, id, at).Ok?
    ensures FromBody(body, ToRow(Build(body, id, at).value)) && Accepted(body)
    ensures KeyFor(body) == KeyOf(ToRow(Build(body, id, at).value))
  {
  }

  /** A row describes exactly the bodies that validation makes equal. */
  lemma {:induction false} FitsExactly(body: NewInput, other: NewInput, row: Row)
    requires FromBody(body, row) && other.RegisterService?
    ensures Accepted(body)
    ensures FromBody(other, row) <==> Accepted(other) && Canonical(other) == Canonical(body)
  {
  }

  lemma {:induction false} FitsKey(body: NewInput, row: Row)
    requires FromBody(body, row)
    ensures Accepted(body) && KeyFor(body) == KeyOf(row)
  {
  }

  // --- The invariant ---

  /** This row was registered. */
  ghost predicate IsRegistered(log: seq<C.Commit>, row: Row) {
    exists i :: 0 <= i < |log| && log[i].write.op.Create? && log[i].write.row == row
  }

  /** The row a registering transaction is about to create. */
  function Creates(tx: C.Tx): Option<Row> {
    match tx
    case Creating(_, a) => Some(ToRow(a))
    case Checked(_, a) => Some(ToRow(a))
    case Wrote(_, w) => if w.op.Create? then Some(w.row) else None
    case Recorded(_, w, _) => if w.op.Create? then Some(w.row) else None
    case Ready(_, w, _, _) => if w.op.Create? then Some(w.row) else None
    case _ => None
  }

  ghost predicate TxFor(tx: C.Tx, body: NewInput) { Creates(tx).Some? && FromBody(body, Creates(tx).value) }

  ghost predicate RequestOk(sent: Sent, txs: map<C.TxId, C.Tx>, log: seq<C.Commit>, r: Request) {
    r.Finished? ||
    (&& r.body.RegisterService? && sent(r.key, r.body)
     && (r.Running? && r.tx in txs ==> TxFor(txs[r.tx], r.body))
     && (r.Registered? ==> FromBody(r.body, r.response) && IsRegistered(log, r.response)))
  }

  ghost predicate OneOwner(requests: map<int, Request>) {
    forall p, q | p in requests && q in requests && p != q && requests[p].Running? && requests[q].Running? ::
      requests[p].tx != requests[q].tx
  }

  /** A saved response was registered for a body that is sent with the key. */
  ghost predicate SavedOk(sent: Sent, log: seq<C.Commit>, key: string, row: Row) {
    IsRegistered(log, row) && exists body :: sent(key, body) && FromBody(body, row)
  }

  /** A fresh answer is the row its own body describes; a replayed one was saved for its key. */
  ghost predicate AnswerOk(sent: Sent, log: seq<C.Commit>, a: Answer) {
    && sent(a.key, a.body) && SavedOk(sent, log, a.key, a.response) && (!a.replayed ==> FromBody(a.body, a.response))
  }

  ghost predicate RequestsOk(sent: Sent, txs: map<C.TxId, C.Tx>, log: seq<C.Commit>, requests: map<int, Request>) {
    forall q | q in requests :: RequestOk(sent, txs, log, requests[q])
  }

  ghost predicate AnswersOk(sent: Sent, log: seq<C.Commit>, idem: map<string, Row>, answers: seq<Answer>) {
    && (forall k | k in idem :: SavedOk(sent, log, k, idem[k]))
    && (forall i | 0 <= i < |answers| :: AnswerOk(sent, log, answers[i]))
  }

  ghost predicate Inv(sent: Sent, w: World) {
    && I.Inv(w.db) && OneOwner(w.requests)
    && RequestsOk(sent, w.db.txs, w.db.log, w.requests) && AnswersOk(sent, w.db.log, w.idem, w.answers)
  }

  lemma {:induction false} RegisteredLater(log: seq<C.Commit>, more: seq<C.Commit>, row: Row)
    requires IsRegistered(log, row) && log <= more
    ensures IsRegistered(more, row)
  {
    var i :| 0 <= i < |log| && log[i].write.op.Create? && log[i].write.row == row;
    assert more[i] == log[i];
  }

  /** A transaction that is not begun anew keeps what it creates. */
  lemma {:induction false} TxKeepsCreating(db: C.Db, c: C.Step, t: C.TxId)
    requires C.Enabled(db, c) && t in db.txs && Creates(db.txs[t]).Some? && t in C.Exec(db, c).txs
    ensures Creates(C.Exec(db, c).txs[t]) == Creates(db.txs[t])
  {
  }

  lemma {:induction false} NoNewTx(db: C.Db, c: C.Step, t: C.TxId)
    requires C.Enabled(db, c) && t !in db.txs && t in C.Exec(db, c).txs
    ensures (c.BeginChange? || c.BeginCreate?) && c.tx == t
  {
  }

  lemma {:induction false} LogGrows(db: C.Db, c: C.Step)
    requires C.Enabled(db, c)
    ensures db.log <= C.Exec(db, c).log
  {
    if !c.CommitTx? {
      I.OnlyCommitsLeaveTraces(db, c);
    }
  }

  lemma {:induction false} RequestStays(sent: Sent, db: C.Db, c: C.Step, r: Request)
    requires C.Enabled(db, c) && RequestOk(sent, db.txs, db.log, r)
    requires (c.BeginChange? || c.BeginCreate?) && r.Running? ==> c.tx != r.tx
    ensures RequestOk(sent, C.Exec(db, c).txs, C.Exec(db, c).log, r)
  {
    if r.Running? && r.tx in C.Exec(db, c).txs {
      if r.tx in db.txs {
        TxKeepsCreating(db, c, r.tx);
      } else {
        NoNewTx(db, c, r.tx);
      }
    } else if r.Registered? {
      LogGrows(db, c);
      RegisteredLater(db.log, C.Exec(db, c).log, r.response);
    }
  }

  lemma {:induction false} SavedStays(sent: Sent, log: seq<C.Commit>, more: seq<C.Commit>, key: string, row: Row)
    requires SavedOk(sent, log, key, row) && log <= more
    ensures SavedOk(sent, more, key, row)
  {
    RegisteredLater(log, more, row);
  }

  lemma {:induction false} AnswersStay(sent: Sent, log: seq<C.Commit>, more: seq<C.Commit>, idem: map<string, Row>, answers: seq<Answer>)
    requires AnswersOk(sent, log, idem, answers) && log <= more
    ensures AnswersOk(sent, more, idem, answers)
  {
    forall k | k in idem ensures SavedOk(sent, more, k, idem[k]) {
      SavedStays(sent, log, more, k, idem[k]);
    }
    forall i | 0 <= i < |answers| ensures AnswerOk(sent, more, answers[i]) {
      SavedStays(sent, log, more, answers[i].key, answers[i].response);
    }
  }

  /** A command step leaves every request and every answer as it should be. */
  lemma {:induction false} DbStep(sent: Sent, w: World, c: C.Step)
    requires Inv(sent, w) && C.Enabled(w.db, c)
    requires c.BeginChange? || c.BeginCreate? ==> !Owned(w, c.tx)
    ensures Inv(sent, w.(db := C.Exec(w.db, c)))
  {
    var db' := C.Exec(w.db, c);
    I.StepKeepsInv(w.db, c);
    LogGrows(w.db, c);
    AnswersStay(sent, w.db.log, db'.log, w.idem, w.answers);
    forall q | q in w.requests ensures RequestOk(sent, db'.txs, db'.log, w.requests[q]) {
      RequestStays(sent, w.db, c, w.requests[q]);
    }
  }

  /** A request moves on; everything else stays. */
  lemma {:induction false} RequestMoves(sent: Sent, w: World, q: int, r: Request)
    requires Inv(sent, w) && RequestOk(sent, w.db.txs, w.db.log, r)
    requires r.Running? ==> forall p | p in w.requests && w.requests[p].Running? && p != q :: w.requests[p].tx != r.tx
    ensures Inv(sent, Become(w, q, r))
  {
    var requests := w.requests[q := r];
    assert OneOwner(requests);
    forall p | p in requests ensures RequestOk(sent, w.db.txs, w.db.log, requests[p]) {
      assert p != q ==> p in w.requests;
    }
  }

  lemma {:induction false} AnswerMore(sent: Sent, log: seq<C.Commit>, idem: map<string, Row>, answers: seq<Answer>, a: Answer, save: bool)
    requires AnswersOk(sent, log, idem, answers) && AnswerOk(sent, log, a)
    ensures AnswersOk(sent, log, if save then idem[a.key := a.response] else idem, answers + [a])
  {
  }

  lemma {:induction false} LookupKeeps(sent: Sent, w: World, q: int)
    requires Inv(sent, w) && Enabled(w, Lookup(q))
    ensures Inv(sent, Exec(w, Lookup(q)))
  {
    var r := w.requests[q];
    assert RequestOk(sent, w.db.txs, w.db.log, r);
    if r.key != "" && r.key in w.idem {
      RequestMoves(sent, w, q, Finished);
      AnswerMore(sent, w.db.log, w.idem, w.answers, Answer(r.key, r.body, w.idem[r.key], true), false);
    } else {
      RequestMoves(sent, w, q, Missed(r.key, r.body));
    }
  }

  lemma {:induction false} BeginKeeps(sent: Sent, w: World, s: Step)
    requires Inv(sent, w) && s.Begin? && Enabled(w, s)
    ensures Inv(sent, Exec(w, s))
  {
    var r := w.requests[s.req];
    assert RequestOk(sent, w.db.txs, w.db.log, r);
    var c := C.BeginCreate(s.tx, r.body, s.newId, s.at);
    DbStep(sent, w, c);
    BuildFits(r.body, s.newId, s.at);
    RequestMoves(sent, w.(db := C.Exec(w.db, c)), s.req, Running(r.key, r.body, s.tx));
  }

  lemma {:induction false} CommitLogs(db: C.Db, t: C.TxId)
    requires C.Enabled(db, C.CommitTx(t, true)) && db.txs[t].write.op.Create?
    ensures IsRegistered(C.Exec(db, C.CommitTx(t, true)).log, db.txs[t].write.row)
  {
    assert C.Exec(db, C.CommitTx(t, true)).log[|db.log|].write == db.txs[t].write;
  }

  lemma {:induction false} CommitKeeps(sent: Sent, w: World, q: int)
    requires Inv(sent, w) && Enabled(w, Commit(q))
    ensures Inv(sent, Exec(w, Commit(q)))
  {
    var r := w.requests[q];
    assert RequestOk(sent, w.db.txs, w.db.log, r);
    DbStep(sent, w, C.CommitTx(r.tx, true));
    CommitLogs(w.db, r.tx);
    RequestMoves(sent, w.(db := C.Exec(w.db, C.CommitTx(r.tx, true))), q, Registered(r.key, r.body, w.db.txs[r.tx].write.row));
  }

  lemma {:induction false} RespondKeeps(sent: Sent, w: World, q: int, saved: bool)
    requires Inv(sent, w) && Enabled(w, Respond(q, saved))
    ensures Inv(sent, Exec(w, Respond(q, saved)))
  {
    var r := w.requests[q];
    assert RequestOk(sent, w.db.txs, w.db.log, r);
    RequestMoves(sent, w, q, Finished);
    AnswerMore(sent, w.db.log, w.idem, w.answers, Answer(r.key, r.body, r.response, false), saved && r.key != "" && r.key !in w.idem);
  }

  lemma {:induction false} StepKeepsInv(sent: Sent, w: World, s: Step)
    requires Inv(sent, w) && Enabled(w, s) && Keeps(sent, s)
    ensures Inv(sent, Exec(w, s))
  {
    match s
    case Receive(q, key, body) => RequestMoves(sent, w, q, Received(key, body));
    case Lookup(q) => LookupKeeps(sent, w, q);
    case Begin(_, _, _, _) => BeginKeeps(sent, w, s);
    case Command(c) => DbStep(sent, w, c);
    case Commit(q) => CommitKeeps(sent, w, q);
    case Fail(q) => RequestMoves(sent, w, q, Finished);
    case Respond(q, saved) => RespondKeeps(sent, w, q, saved);
  }

  lemma {:induction false} RunKeepsInv(sent: Sent, w: World, steps: seq<Step>)
    requires Inv(sent, w) && IsRun(sent, w, steps)
    ensures Inv(sent, Run(sent, w, steps))
    decreases |steps|
  {
    if steps != [] {
      StepKeepsInv(sent, w, steps[0]);
      RunKeepsInv(sent, Exec(w, steps[0]), steps[1..]);
    }
  }

  lemma {:induction false} EveryRunInv(sent: Sent, steps: seq<Step>)
    requires IsRun(sent, EmptyWorld, steps)
    ensures Inv(sent, Run(sent, EmptyWorld, steps))
  {
    I.EmptyInv();
    assert Inv(sent, EmptyWorld);
    RunKeepsInv(sent, EmptyWorld, steps);
  }

  // --- Saved responses ---

  /** The first response saved for a key is the one that stays; a request without a key saves none. */
  lemma {:induction false} RespondSaves(w: World, q: int, saved: bool)
    requires Enabled(w, Respond(q, saved))
    ensures var r, idem := w.requests[q], Exec(w, Respond(q, saved)).idem;
            && (forall key | key in w.idem :: key in idem && idem[key] == w.idem[key])
            && (forall key | key in idem :: key in w.idem || (saved && key == r.key != "" && idem[key] == r.response))
            && (saved && r.key != "" ==> r.key in idem)
  {
  }

  /** A saved response is never replaced. */
  lemma {:induction false} SavedForGood(sent: Sent, w: World, steps: seq<Step>, key: string)
    requires IsRun(sent, w, steps) && key in w.idem
    ensures key in Run(sent, w, steps).idem && Run(sent, w, steps).idem[key] == w.idem[key]
    decreases |steps|
  {
    if steps != [] {
      if steps[0].Respond? {
        RespondSaves(w, steps[0].req, steps[0].saved);
      }
      SavedForGood(sent, Exec(w, steps[0]), steps[1..], key);
    }
  }

  // --- The handler ---

  predicate Concerns(s: Step, q: int) { !s.Command? && s.req == q }

  /** The log goes on from where it was, and a unique key that is taken stays taken. */
  ghost predicate Grows(db: C.Db, db': C.Db) {
    && |db.log| <= |db'.log| && (forall k | 0 <= k < |db.log| :: db'.log[k] == db.log[k])
    && (forall key :: C.KeyTaken(db.rows, key) ==> C.KeyTaken(db'.rows, key))
  }

  /** This transaction registered the row, after the first n commits. */
  ghost predicate RegisteredBy(log: seq<C.Commit>, n: nat, tx: C.TxId, row: Row) {
    exists k :: n <= k < |log| && log[k].tx == tx && log[k].write.op.Create? && log[k].write.row == row
  }

  predicate IsReady(db: C.Db, tx: C.TxId) { tx in db.txs && db.txs[tx].Ready? }

  /**
   Why there is no answer: the body does not pass validation, the transaction could not begin, or
   it is gone, rolled back or committed without an acknowledgement, or still on its way.
   */
  ghost predicate GaveUp(w: World, q: int, key: string, body: NewInput, tx: C.TxId, newId: int, at: Time) {
    && q in w.requests
    && (|| (w.requests[q] == Missed(key, body) && (Build(body, newId, at).Err? || tx in w.db.txs || Owned(w, tx)))
        || (w.requests[q] == Running(key, body, tx) && !IsReady(w.db, tx)))
  }

  lemma {:induction false} DbGrows(db: C.Db, c: C.Step)
    requires I.Inv(db) && C.Enabled(db, c)
    ensures Grows(db, C.Exec(db, c))
  {
    LogGrows(db, c);
    forall key | C.KeyTaken(db.rows, key) ensures C.KeyTaken(C.Exec(db, c).rows, key) {
      var id :| id in db.rows && KeyOf(db.rows[id]) == key;
      I.StepKeepsIdentity(db, c, id);
    }
  }

  lemma {:induction false} StepGrows(w: World, s: Step)
    requires I.Inv(w.db) && Enabled(w, s)
    ensures Grows(w.db, Exec(w, s).db)
  {
    match s
    case Begin(q, t, newId, at) => DbGrows(w.db, C.BeginCreate(t, w.requests[q].body, newId, at));
    case Command(c) => DbGrows(w.db, c);
    case Commit(q) => DbGrows(w.db, C.CommitTx(w.requests[q].tx, true));
    case _ =>
  }

  lemma {:induction false} CommitOrFailIs(w: World, q: int)
    requires q in w.requests && w.requests[q].Running?
    ensures Enabled(w, Commit(q)) <==> IsReady(w.db, w.requests[q].tx)
    ensures Enabled(w, Fail(q)) && Exec(w, Fail(q)) == Become(w, q, Finished)
  {
  }

  lemma {:induction false} CommitRegisters(sent: Sent, w: World, q: int, n: nat)
    requires Inv(sent, w) && Enabled(w, Commit(q)) && n <= |w.db.log|
    ensures var w' := Exec(w, Commit(q)); RegisteredBy(w'.db.log, n, w.requests[q].tx, w'.requests[q].response)
    ensures !C.KeyTaken(w.db.rows, KeyOf(Exec(w, Commit(q)).requests[q].response))
  {
    var t := w.requests[q].tx;
    assert RequestOk(sent, w.db.txs, w.db.log, w.requests[q]);
    assert I.TxFine(w.db.rows, w.db.txs[t]);
    assert C.Exec(w.db, C.CommitTx(t, true)).log[|w.db.log|] == C.Commit(t, w.db.txs[t].write, w.db.txs[t].out);
  }

  class Server {
    const sent: Sent
    var world: World

    constructor (sent: Sent)
      ensures this.sent == sent && world == EmptyWorld && Inv(sent, world)
    {
      this.sent, world := sent, EmptyWorld;
      new;
      I.EmptyInv();
    }

    method Take(s: Step)
      requires Inv(sent, world) && Enabled(world, s) && Keeps(sent, s)
      modifies this
      ensures Inv(sent, world) && world == Exec(old(world), s) && Grows(old(world.db), world.db)
      ensures forall q | q in old(world.requests) && !Concerns(s, q) :: q in world.requests && world.requests[q] == old(world.requests[q])
    {
      StepKeepsInv(sent, world, s);
      StepGrows(world, s);
      world := Exec(world, s);
    }

    /** Others, and the database on this request's behalf, take those of the offered steps that are possible. */
    method Interfere(offers: seq<Step>, q: int)
      requires Inv(sent, world) && q in world.requests
      modifies this
      ensures Inv(sent, world) && q in world.requests && world.requests[q] == old(world.requests[q])
      ensures Grows(old(world.db), world.db)
    {
      for i := 0 to |offers|
        invariant Inv(sent, world) && q in world.requests && world.requests[q] == old(world.requests[q])
        invariant Grows(old(world.db), world.db)
      {
        if !Concerns(offers[i], q) && Enabled(world, offers[i]) && Keeps(sent, offers[i]) {
          Take(offers[i]);
        }
      }
    }

    /** The last answer given is this one, and it is a registration: of this body, unless replayed. */
    ghost predicate Answered(q: int, key: string, body: NewInput, answer: Option<Row>, replayed: bool)
      reads this
    {
      && q in world.requests && world.requests[q] == Finished
      && (answer.Some? ==>
            && |world.answers| > 0 && world.answers[|world.answers| - 1] == Answer(key, body, answer.value, replayed)
            && IsRegistered(world.db.log, answer.value) && (!replayed ==> FromBody(body, answer.value)))
    }

    /** The request arrives; a saved response for its key is its answer. */
    method LookUp(q: int, key: string, body: NewInput) returns (answer: Option<Row>)
      requires Inv(sent, world) && Enabled(world, Receive(q, key, body)) && sent(key, body)
      modifies this
      ensures Inv(sent, world) && Grows(old(world.db), world.db)
      ensures answer == if key != "" && key in old(world.idem) then Some(old(world.idem)[key]) else None
      ensures if answer.Some? then Answered(q, key, body, answer, true)
              else q in world.requests && world.requests[q] == Missed(key, body)
    {
      answer := if key != "" && key in world.idem then Some(world.idem[key]) else None;
      Take(Receive(q, key, body));
      Take(Lookup(q));
    }

    /** Commits the request's transaction if it is ready, and otherwise gives up. */
    method CommitOrFail(q: int, ghost n: nat) returns (ok: bool)
      requires Inv(sent, world) && q in world.requests && world.requests[q].Running? && n <= |world.db.log|
      modifies this
      ensures Inv(sent, world) && q in world.requests && Grows(old(world.db), world.db)
      ensures var was, now := old(world.requests[q]), world.requests[q];
              ok ==> && now.Registered? && (now.key, now.body) == (was.key, was.body)
                     && RegisteredBy(world.db.log, n, was.tx, now.response) && !C.KeyTaken(old(world.db.rows), KeyOf(now.response))
      ensures !ok ==> !IsReady(old(world.db), old(world.requests[q].tx)) && world == Become(old(world), q, Finished)
    {
      ok := IsReady(world.db, world.requests[q].tx);
      CommitOrFailIs(world, q);
      if ok {
        CommitRegisters(sent, world, q, n);
        Take(Commit(q));
      } else {
        Take(Fail(q));
      }
    }

    /** Begins the request's transaction, which others and the database then carry on. */
    method Start(q: int, tx: C.TxId, newId: int, at: Time, during: seq<Step>) returns (begun: bool)
      requires Inv(sent, world) && q in world.requests && world.requests[q].Missed?
      modifies this
      ensures Inv(sent, world) && q in world.requests && Grows(old(world.db), world.db)
      ensures var r := old(world.requests[q]);
              if begun then world.requests[q] == Running(r.key, r.body, tx)
              else world == old(world) && GaveUp(world, q, r.key, r.body, tx, newId, at)
    {
      begun := Enabled(world, Begin(q, tx, newId, at));
      if begun {
        Take(Begin(q, tx, newId, at));
        Interfere(during, q);
      }
    }

    method RegisterNew(q: int, tx: C.TxId, newId: int, at: Time, during: seq<Step>) returns (ok: bool, ghost seen: World)
      requires Inv(sent, world) && q in world.requests && world.requests[q].Missed?
      modifies this
      ensures Inv(sent, world) && q in world.requests && Grows(old(world.db), world.db)
      ensures var was, now := old(world.requests[q]), world.requests[q];
              && (ok ==> && now.Registered? && (now.key, now.body) == (was.key, was.body)
                         && RegisteredBy(world.db.log, |old(world.db.log)|, tx, now.response)
                         && !C.KeyTaken(old(world.db.rows), KeyOf(now.response)))
              && (!ok ==> GaveUp(seen, q, was.key, was.body, tx, newId, at) && world == Become(seen, q, Finished))
    {
      ok := Start(q, tx, newId, at, during);
      seen := world;
      if ok {
        ok := CommitOrFail(q, |old(world.db.log)|);
      } else {
        Take(Fail(q));
      }
    }

    /** Saving and answering; the first saved response for a key stays. */
    method SaveAndRespond(q: int, saved: bool) returns (answer: Row)
      requires Inv(sent, world) && q in world.requests && world.requests[q].Registered?
      modifies this
      ensures Inv(sent, world) && Grows(old(world.db), world.db)
      ensures var r := old(world.requests[q]); answer == r.response && Answered(q, r.key, r.body, Some(answer), false)
      ensures var key := old(world.requests[q].key); saved && key != "" ==> key in world.idem
    {
      RespondSaves(world, q, saved);
      answer := world.requests[q].response;
      assert RequestOk(sent, world.db.txs, world.db.log, world.requests[q]);
      Take(Respond(q, saved));
    }

    /**
     Lookup, effect, save, answer, with anything happening in between. The answer is the response
     saved for the key, or the row this body describes, registered by this request under a name that
     was free at the start. No answer is explained by the state in which the request gave up.
     */
    method Register(q: int, key: string, body: NewInput, tx: C.TxId, newId: int, at: Time,
                    before: seq<Step>, during: seq<Step>, after: seq<Step>, saved: bool)
      returns (answer: Option<Row>, replayed: bool, ghost seen: World)
      requires Inv(sent, world) && Enabled(world, Receive(q, key, body)) && sent(key, body)
      modifies this
      ensures Inv(sent, world) && Answered(q, key, body, answer, replayed)
      ensures replayed <==> key != "" && key in old(world.idem)
      ensures replayed ==> answer == Some(old(world.idem)[key])
      ensures answer.Some? && !replayed ==>
                RegisteredBy(world.db.log, |old(world.db.log)|, tx, answer.value) && !C.KeyTaken(old(world.db.rows), KeyOf(answer.value))
      ensures answer.Some? && !replayed && saved && key != "" ==> key in world.idem
      ensures answer.None? ==> GaveUp(seen, q, key, body, tx, newId, at) && world == Become(seen, q, Finished)
    {
      answer := LookUp(q, key, body);
      seen := world;
      replayed := answer.Some?;
      if replayed {
        return;
      }
      Interfere(before, q);
      var ok;
      ok, seen := RegisterNew(q, tx, newId, at, during);
      if !ok {
        return;
      }
      Interfere(after, q);
      var row := SaveAndRespond(q, saved);
      answer := Some(row);
    }
  }
}
