/**
 What an Idempotency-Key is good for. Whether all 201 answers for a key are the same depends on
 the bodies clients send with it, and on nothing else; the condition below is exact.
 */
module Idempotency {
  import opened Wrappers
  import opened Events
  import opened Aggregates
  import opened Paths
  import opened Registration
  import opened SoloSteps
  import C = CommandProtocol
  import I = CommandIdentity

  /** All 201 answers for a key, fresh or replayed, are the same response. */
  ghost predicate OneAnswer(w: World, key: string) {
    forall i, j | 0 <= i < |w.answers| && 0 <= j < |w.answers| && w.answers[i].key == w.answers[j].key == key ::
      w.answers[i].response == w.answers[j].response
  }

  /** The bodies sent with a key that pass validation all register one name of one tenant. */
  ghost predicate OneName(sent: Sent, key: string) {
    forall b, c | sent(key, b) && sent(key, c) && Accepted(b) && Accepted(c) :: KeyFor(b) == KeyFor(c)
  }

  /** Two registered rows with one unique key are one registration. */
  lemma {:induction false} OneRegistration(log: seq<C.Commit>, row: Row, other: Row)
    requires I.RegisteredOnce(log) && IsRegistered(log, row) && IsRegistered(log, other) && KeyOf(row) == KeyOf(other)
    ensures row == other
  {
    var i :| 0 <= i < |log| && log[i].write.op.Create? && log[i].write.row == row;
    var j :| 0 <= j < |log| && log[j].write.op.Create? && log[j].write.row == other;
    assert i == j;
  }

  lemma {:induction false} SavedHasName(sent: Sent, log: seq<C.Commit>, key: string, row: Row) returns (body: NewInput)
    requires SavedOk(sent, log, key, row)
    ensures sent(key, body) && FromBody(body, row) && Accepted(body) && KeyFor(body) == KeyOf(row)
  {
    body :| sent(key, body) && FromBody(body, row);
    FitsKey(body, row);
  }

  /** With one name per key, all answers are the one service that was registered under it. */
  lemma {:induction false} OneNameOneAnswer(sent: Sent, steps: seq<Step>, key: string)
    requires IsRun(sent, EmptyWorld, steps) && OneName(sent, key)
    ensures OneAnswer(Run(sent, EmptyWorld, steps), key)
  {
    EveryRunInv(sent, steps);
    var w := Run(sent, EmptyWorld, steps);
    forall i, j | 0 <= i < |w.answers| && 0 <= j < |w.answers| && w.answers[i].key == w.answers[j].key == key
      ensures w.answers[i].response == w.answers[j].response
    {
      assert AnswerOk(sent, w.db.log, w.answers[i]) && AnswerOk(sent, w.db.log, w.answers[j]);
      var b := SavedHasName(sent, w.db.log, key, w.answers[i].response);
      var c := SavedHasName(sent, w.db.log, key, w.answers[j].response);
      OneRegistration(w.db.log, w.answers[i].response, w.answers[j].response);
    }
  }

  /** A key that is only ever sent with one body always gets one answer. */
  lemma {:induction false} OneBodyOneAnswer(sent: Sent, steps: seq<Step>, key: string, body: NewInput)
    requires IsRun(sent, EmptyWorld, steps) && forall b | sent(key, b) :: b == body
    ensures OneAnswer(Run(sent, EmptyWorld, steps), key)
  {
    OneNameOneAnswer(sent, steps, key);
  }

  /**
   A replay does not look at the body: the saved response is what this body asks for if and only
   if validation makes the body equal to the one the response was registered for.
   */
  lemma {:induction false} ReplayFitsExactly(sent: Sent, steps: seq<Step>, q: int) returns (original: NewInput)
    requires IsRun(sent, EmptyWorld, steps)
    requires var w := Run(sent, EmptyWorld, steps);
             q in w.requests && w.requests[q].Received? && w.requests[q].key != "" && w.requests[q].key in w.idem
    ensures var w := Run(sent, EmptyWorld, steps);
            var r, saved := w.requests[q], w.idem[w.requests[q].key];
            && Exec(w, Lookup(q)).answers == w.answers + [Answer(r.key, r.body, saved, true)] && Exec(w, Lookup(q)).db == w.db
            && sent(r.key, original) && Accepted(original) && IsRegistered(w.db.log, saved)
            && (FromBody(r.body, saved) <==> Accepted(r.body) && Canonical(r.body) == Canonical(original))
  {
    EveryRunInv(sent, steps);
    var w := Run(sent, EmptyWorld, steps);
    var r := w.requests[q];
    assert RequestOk(sent, w.db.txs, w.db.log, r);
    assert SavedOk(sent, w.db.log, r.key, w.idem[r.key]);
    original := SavedHasName(sent, w.db.log, r.key, w.idem[r.key]);
    FitsExactly(original, r.body, w.idem[r.key]);
  }

  // --- Two names for one key ---

  ghost predicate Moved(sent: Sent, w: World, s: Step, w': World) { Enabled(w, s) && Keeps(sent, s) && Exec(w, s) == w' }

  ghost function Moves(sent: Sent): (World, Step, World) -> bool { (w, s, w') => Moved(sent, w, s, w') }

  ghost predicate Leads(sent: Sent, w: World, w': World) { exists steps :: Path(Moves(sent), w, steps, w') }

  lemma {:induction false} Take(sent: Sent, w: World, s: Step)
    requires Enabled(w, s) && Keeps(sent, s)
    ensures Leads(sent, w, Exec(w, s))
  {
    assert Moves(sent)(w, s, Exec(w, s)) && Path(Moves(sent), Exec(w, s), [s][1..], Exec(w, s));
    assert Path(Moves(sent), w, [s], Exec(w, s));
  }

  lemma {:induction false} LeadsOn(sent: Sent, w: World, mid: World, w': World)
    requires Leads(sent, w, mid) && Leads(sent, mid, w')
    ensures Leads(sent, w, w')
  {
    var steps :| Path(Moves(sent), w, steps, mid);
    var more :| Path(Moves(sent), mid, more, w');
    PathThen(Moves(sent), w, steps, mid, more, w');
    assert Path(Moves(sent), w, steps + more, w');
  }

  lemma {:induction false} PathIsRun(sent: Sent, w: World, steps: seq<Step>, w': World)
    requires Path(Moves(sent), w, steps, w')
    ensures IsRun(sent, w, steps) && Run(sent, w, steps) == w'
    decreases |steps|
  {
    if steps != [] {
      var mid :| Moves(sent)(w, steps[0], mid) && Path(Moves(sent), mid, steps[1..], w');
      PathIsRun(sent, mid, steps[1..], w');
    }
  }

  /** Nobody is registering anything. */
  ghost predicate Quiet(w: World) { w.db.txs == map[] && forall q | q in w.requests :: !w.requests[q].Running? }

  /** The world during one registration that is alone. */
  ghost function During(w: World, q: int, t: C.TxId, tx: C.Tx): World
    requires q in w.requests && w.requests[q].Missed?
  {
    var r := w.requests[q];
    Become(w, q, Running(r.key, r.body, t)).(db := C.Become(w.db, t, tx))
  }

  lemma {:induction false} DuringStep(sent: Sent, w: World, q: int, t: C.TxId, tx: C.Tx, c: C.Step, tx': C.Tx)
    requires q in w.requests && w.requests[q].Missed?
    requires C.Enabled(C.Become(w.db, t, tx), c) && !c.BeginChange? && !c.BeginCreate? && !c.CommitTx?
    requires C.Exec(C.Become(w.db, t, tx), c) == C.Become(w.db, t, tx')
    ensures Leads(sent, During(w, q, t, tx), During(w, q, t, tx'))
  {
    Take(sent, During(w, q, t, tx), Command(c));
  }

  /** From the validated input to the transaction that is ready to commit. */
  lemma {:induction false} RunsToReady(sent: Sent, w: World, q: int, t: C.TxId, a: Aggregate) returns (tx: C.Tx)
    requires q in w.requests && w.requests[q].Missed? && Room(w.db, t, a)
    ensures tx.Ready? && tx.write == C.BirthWrite(a)
    ensures Leads(sent, During(w, q, t, C.Creating(w.db.clock, a)), During(w, q, t, tx))
  {
    var db, write := w.db, C.BirthWrite(a);
    var creating, checked, wrote := C.Creating(db.clock, a), C.Checked(db.clock, a), C.Wrote(db.clock, write);
    var recorded := C.Recorded(db.clock, write, C.ViewOf(db.history, write));
    var ids := seq(|write.events|, i => i);
    tx := ReadyWith(db, write, ids);
    CheckAlone(db, t, a);
    DuringStep(sent, w, q, t, creating, C.CheckName(t), checked);
    InsertAlone(db, t, a);
    DuringStep(sent, w, q, t, checked, C.Insert(t), wrote);
    LeadsOn(sent, During(w, q, t, creating), During(w, q, t, checked), During(w, q, t, wrote));
    RecordAlone(db, t, write);
    DuringStep(sent, w, q, t, wrote, C.RecordOwnership(t), recorded);
    LeadsOn(sent, During(w, q, t, creating), During(w, q, t, wrote), During(w, q, t, recorded));
    AppendAlone(db, t, write, ids);
    DuringStep(sent, w, q, t, recorded, C.Append(t, ids), tx);
    LeadsOn(sent, During(w, q, t, creating), During(w, q, t, recorded), During(w, q, t, tx));
  }

  /** What a served request leaves. */
  ghost predicate Served(w: World, q: int, row: Row, w': World)
    requires q in w.requests && w.requests[q].Missed?
  {
    && Quiet(w') && w'.requests == w.requests[q := Registered(w.requests[q].key, w.requests[q].body, row)]
    && w'.db.rows == w.db.rows[IdOf(row) := row] && w'.db.clock == w.db.clock
    && w'.idem == w.idem && w'.answers == w.answers
  }

  lemma {:induction false} BeginAlone(sent: Sent, w: World, q: int, newId: int, a: Aggregate)
    requires Quiet(w) && q in w.requests && w.requests[q].Missed? && Build(w.requests[q].body, newId, w.db.clock) == Ok(a)
    ensures Leads(sent, w, During(w, q, 0, C.Creating(w.db.clock, a)))
  {
    Take(sent, w, Begin(q, 0, newId, w.db.clock));
  }

  lemma {:induction false} CommitRequest(sent: Sent, w: World, q: int, tx: C.Tx) returns (w': World)
    requires Quiet(w) && q in w.requests && w.requests[q].Missed? && tx.Ready?
    ensures Leads(sent, During(w, q, 0, tx), w') && Served(w, q, tx.write.row, w')
  {
    var mid := During(w, q, 0, tx);
    Take(sent, mid, Commit(q));
    w' := Exec(mid, Commit(q));
    assert w'.db.txs == map[];
    assert w'.requests == w.requests[q := Registered(w.requests[q].key, w.requests[q].body, tx.write.row)];
  }

  /** A request that nobody gets in the way of is registered. */
  lemma {:induction false} Serve(sent: Sent, w: World, q: int, newId: int, a: Aggregate) returns (w': World)
    requires Quiet(w) && q in w.requests && w.requests[q].Missed? && Build(w.requests[q].body, newId, w.db.clock) == Ok(a)
    requires Room(w.db, 0, a)
    ensures Leads(sent, w, w') && Served(w, q, ToRow(a), w')
  {
    BeginAlone(sent, w, q, newId, a);
    var begun := During(w, q, 0, C.Creating(w.db.clock, a));
    var tx := RunsToReady(sent, w, q, 0, a);
    LeadsOn(sent, w, begun, During(w, q, 0, tx));
    w' := CommitRequest(sent, w, q, tx);
    LeadsOn(sent, w, During(w, q, 0, tx), w');
  }

  /** A request arrives whose key has no saved response. */
  lemma {:induction false} ArriveAndMiss(sent: Sent, w: World, q: int, key: string, body: NewInput)
    requires sent(key, body) && body.RegisterService? && q !in w.requests && key !in w.idem
    ensures Leads(sent, w, Become(w, q, Missed(key, body)))
  {
    var mid := Become(w, q, Received(key, body));
    Take(sent, w, Receive(q, key, body));
    Take(sent, mid, Lookup(q));
    assert w.requests[q := Received(key, body)][q := Missed(key, body)] == w.requests[q := Missed(key, body)];
    LeadsOn(sent, w, mid, Become(w, q, Missed(key, body)));
  }

  /** Two requests with one key arrive before either is answered. */
  lemma {:induction false} BothMiss(sent: Sent, key: string, b: NewInput, c: NewInput) returns (w: World)
    requires sent(key, b) && sent(key, c) && b.RegisterService? && c.RegisterService?
    ensures Leads(sent, EmptyWorld, w) && Quiet(w) && w.db == C.EmptyDb && w.answers == []
    ensures w.requests == map[1 := Missed(key, b), 2 := Missed(key, c)]
  {
    ArriveAndMiss(sent, EmptyWorld, 1, key, b);
    var w1 := Become(EmptyWorld, 1, Missed(key, b));
    ArriveAndMiss(sent, w1, 2, key, c);
    w := Become(w1, 2, Missed(key, c));
    LeadsOn(sent, EmptyWorld, w1, w);
  }

  lemma {:induction false} StillAlone(db: C.Db, db': C.Db, row: Row, a: Aggregate)
    requires Room(db, 0, a) && db'.txs == map[] && db'.rows == db.rows[IdOf(row) := row]
    requires IdOf(row) != IdOf(ToRow(a)) && KeyOf(row) != KeyOf(ToRow(a))
    ensures Room(db', 0, a)
  {
  }

  /** Both are registered. */
  lemma {:induction false} BothServed(sent: Sent, w: World, p: int, q: int, a: Aggregate, b: Aggregate) returns (w': World)
    requires Quiet(w) && p != q && p in w.requests && q in w.requests && w.requests[p].Missed? && w.requests[q].Missed?
    requires Build(w.requests[p].body, p, w.db.clock) == Ok(a) && Build(w.requests[q].body, q, w.db.clock) == Ok(b)
    requires Room(w.db, 0, a) && Room(w.db, 0, b) && IdOf(ToRow(a)) != IdOf(ToRow(b)) && KeyOf(ToRow(a)) != KeyOf(ToRow(b))
    ensures Leads(sent, w, w') && w'.answers == w.answers && p in w'.requests && q in w'.requests
    ensures w'.requests[p] == Registered(w.requests[p].key, w.requests[p].body, ToRow(a))
    ensures w'.requests[q] == Registered(w.requests[q].key, w.requests[q].body, ToRow(b))
  {
    var w1 := Serve(sent, w, p, p, a);
    StillAlone(w.db, w1.db, ToRow(a), b);
    w' := Serve(sent, w1, q, q, b);
    LeadsOn(sent, w, w1, w');
  }

  /** Both are answered, each with its own row. */
  lemma {:induction false} BothAnswered(sent: Sent, w: World, key: string, b: NewInput, c: NewInput, row: Row, other: Row) returns (w': World)
    requires 1 in w.requests && w.requests[1] == Registered(key, b, row) && w.answers == []
    requires 2 in w.requests && w.requests[2] == Registered(key, c, other)
    ensures Leads(sent, w, w') && w'.answers == [Answer(key, b, row, false), Answer(key, c, other, false)]
  {
    var mid := Exec(w, Respond(1, true));
    Take(sent, w, Respond(1, true));
    w' := Exec(mid, Respond(2, true));
    Take(sent, mid, Respond(2, true));
    LeadsOn(sent, w, mid, w');
  }

  lemma {:induction false} BuildAt(body: NewInput, id: int, at: Time) returns (a: Aggregate)
    requires Accepted(body)
    ensures Build(body, id, at) == Ok(a) && KeyOf(ToRow(a)) == KeyFor(body) && IdOf(ToRow(a)) == ServiceId(id)
  {
    a := Build(body, id, at).value;
  }

  lemma {:induction false} NothingInTheWay(a: Aggregate)
    ensures Room(C.EmptyDb, 0, a)
  {
  }

  lemma {:induction false} RaceToAnswers(sent: Sent, key: string, b: NewInput, c: NewInput) returns (last: World)
    requires sent(key, b) && sent(key, c) && Accepted(b) && Accepted(c) && KeyFor(b) != KeyFor(c)
    ensures Leads(sent, EmptyWorld, last) && !OneAnswer(last, key)
  {
    var w := BothMiss(sent, key, b, c);
    var a1 := BuildAt(b, 1, 0);
    var a2 := BuildAt(c, 2, 0);
    NothingInTheWay(a1);
    NothingInTheWay(a2);
    var served := BothServed(sent, w, 1, 2, a1, a2);
    LeadsOn(sent, EmptyWorld, w, served);
    last := BothAnswered(sent, served, key, b, c, ToRow(a1), ToRow(a2));
    LeadsOn(sent, EmptyWorld, served, last);
    assert last.answers[0].response != last.answers[1].response;
  }

  /** Any two bodies for different names, sent with one key, can get two different answers. */
  lemma {:induction false} TwoNamesTwoAnswers(sent: Sent, key: string, b: NewInput, c: NewInput) returns (steps: seq<Step>)
    requires sent(key, b) && sent(key, c) && Accepted(b) && Accepted(c) && KeyFor(b) != KeyFor(c)
    ensures IsRun(sent, EmptyWorld, steps) && !OneAnswer(Run(sent, EmptyWorld, steps), key)
  {
    var last := RaceToAnswers(sent, key, b, c);
    steps :| Path(Moves(sent), EmptyWorld, steps, last);
    PathIsRun(sent, EmptyWorld, steps, last);
  }

  /**
   Exactly when a key has one answer. In every run, all 201 answers for a key are the same if and
   only if the bodies sent with it that pass validation all ask for one name of one tenant.
   */
  lemma {:induction false} OneAnswerExactly(sent: Sent, key: string)
    ensures (forall steps | IsRun(sent, EmptyWorld, steps) :: OneAnswer(Run(sent, EmptyWorld, steps), key))
       <==> OneName(sent, key)
  {
    if OneName(sent, key) {
      forall steps | IsRun(sent, EmptyWorld, steps) ensures OneAnswer(Run(sent, EmptyWorld, steps), key) {
        OneNameOneAnswer(sent, steps, key);
      }
    } else {
      var b, c :| sent(key, b) && sent(key, c) && Accepted(b) && Accepted(c) && KeyFor(b) != KeyFor(c);
      var steps := TwoNamesTwoAnswers(sent, key, b, c);
    }
  }
}
