/**
 The outbox relay: any number of replicas claim rows, publish them one by one to a bus with a
 deduplication window, mark them and commit. Publishes may time out and arrive later or never,
 replicas may crash anywhere, and a commit may succeed without its acknowledgement.
 */
module RelayProtocol {
  import opened Events

  type RelayId = int

  /** The stream's duplicate window, in seconds. */
  const Window: Time := 120

  datatype Message = Message(id: int, subject: string, data: Event)

  datatype Stored = Stored(msg: Message, at: Time)

  /** A publish that reached the bus, whether stored or recognised as a duplicate. */
  datatype Arrival = Arrival(id: int, at: Time)

  /** A live claim: the locked rows, how many have been published, and whether they are marked. */
  datatype Claim = Claim(ids: seq<int>, sent: nat, marked: bool)

  /**
   `outbox` holds the committed rows and `published` those whose published_at is set. `limbo`
   are the publishes that timed out and may still arrive. `marks` and `arrivals` record, for
   the statements below, the order in which rows were marked and messages reached the bus.
   */
  datatype Relay = Relay(
    prefix: string,
    outbox: map<int, OutboxRow>,
    published: set<int>,
    claims: map<RelayId, Claim>,
    limbo: set<int>,
    stream: seq<Stored>,
    clock: Time,
    marks: seq<int>,
    arrivals: seq<Arrival>)

  function NewRelay(prefix: string): Relay { Relay(prefix, map[], {}, map[], {}, [], 0, [], []) }

  datatype Step =
    | Produce(rows: seq<OutboxRow>)
    | BusTick(to: Time)
    | ClaimRows(r: RelayId, ids: seq<int>)
    | Publish(r: RelayId, acked: bool)
    | Arrive(id: int)
    | Mark(r: RelayId)
    | CommitMarks(r: RelayId, acked: bool)
    | Abort(r: RelayId)

  function SubjectFor(prefix: string, row: OutboxRow): string { prefix + "." + EventType(row.event.body) }

  function MessageOf(prefix: string, row: OutboxRow): Message {
    Message(row.id, SubjectFor(prefix, row), row.event)
  }

  /** The message is that event under that id, word for word, on the subject of its kind. */
  ghost predicate Conveys(msg: Message, prefix: string, id: int, e: Event) {
    && msg.id == id && msg.data == e
    && (e.body.ServiceRegistered? ==> msg.subject == prefix + "." + "catalog.service.registered")
    && (e.body.OwnershipChanged? ==> msg.subject == prefix + "." + "catalog.service.ownership_changed")
    && (e.body.LifecycleChanged? ==> msg.subject == prefix + "." + "catalog.service.lifecycle_changed")
    && (e.body.ServiceRetired? ==> msg.subject == prefix + "." + "catalog.service.retired")
    && (e.body.TenantCreated? ==> msg.subject == prefix + "." + "tenant.created")
    && (e.body.StatusChanged? ==> msg.subject == prefix + "." + "tenant.status_changed")
    && (e.body.QuotaUpdated? ==> msg.subject == prefix + "." + "tenant.quota_updated")
  }

  lemma {:induction false} MessageConveys(prefix: string, row: OutboxRow)
    ensures Conveys(MessageOf(prefix, row), prefix, row.id, row.event)
  {
  }

  predicate Distinct(ids: seq<int>) { forall i, j | 0 <= i < j < |ids| :: ids[i] != ids[j] }

  function RowIds(rows: seq<OutboxRow>): seq<int> {
    seq(|rows|, i requires 0 <= i < |rows| => rows[i].id)
  }

  /** Unpublished and not locked by a live claim. */
  predicate Claimable(s: Relay, id: int) {
    id in s.outbox && id !in s.published && forall r | r in s.claims :: id !in s.claims[r].ids
  }

  predicate Enabled(s: Relay, step: Step) {
    match step
    case Produce(rows) => Distinct(RowIds(rows)) && forall i | 0 <= i < |rows| :: rows[i].id !in s.outbox
    case BusTick(_) => true
    case ClaimRows(r, ids) =>
      r !in s.claims && Distinct(ids) && forall i | 0 <= i < |ids| :: Claimable(s, ids[i])
    case Publish(r, _) => r in s.claims && s.claims[r].sent < |s.claims[r].ids| && s.claims[r].ids[s.claims[r].sent] in s.outbox
    case Arrive(id) => id in s.limbo && id in s.outbox
    case Mark(r) => r in s.claims && s.claims[r].sent == |s.claims[r].ids|
    case CommitMarks(r, _) => r in s.claims && s.claims[r].marked
    case Abort(r) => r in s.claims
  }

  function AddRows(outbox: map<int, OutboxRow>, rows: seq<OutboxRow>): map<int, OutboxRow> {
    if rows == [] then outbox
    else var last := rows[|rows| - 1]; AddRows(outbox, rows[..|rows| - 1])[last.id := last]
  }

  predicate Seen(stream: seq<Stored>, id: int, now: Time) {
    exists k :: 0 <= k < |stream| && stream[k].msg.id == id && now - stream[k].at < Window
  }

  /** The bus receives a message: stored, unless its id was stored within the window. */
  function Receive(s: Relay, msg: Message): Relay {
    s.(arrivals := s.arrivals + [Arrival(msg.id, s.clock)],
       stream := if Seen(s.stream, msg.id, s.clock) then s.stream else s.stream + [Stored(msg, s.clock)])
  }

  function Release(s: Relay, r: RelayId): Relay { s.(claims := s.claims - {r}) }

  /** A publish error makes the replica roll back, so its claim is gone. */
  function ExecPublish(s: Relay, r: RelayId, acked: bool): Relay
    requires Enabled(s, Publish(r, acked))
  {
    var c := s.claims[r];
    var id := c.ids[c.sent];
    if acked then Receive(s, MessageOf(s.prefix, s.outbox[id])).(claims := s.claims[r := c.(sent := c.sent + 1)])
    else Release(s, r).(limbo := s.limbo + {id})
  }

  function Exec(s: Relay, step: Step): Relay
    requires Enabled(s, step)
  {
    match step
    case Produce(rows) => s.(outbox := AddRows(s.outbox, rows))
    case BusTick(to) => s.(clock := to)
    case ClaimRows(r, ids) => if ids == [] then s else s.(claims := s.claims[r := Claim(ids, 0, false)])
    case Publish(r, acked) => ExecPublish(s, r, acked)
    case Arrive(id) => Receive(s, MessageOf(s.prefix, s.outbox[id]))
    case Mark(r) => s.(claims := s.claims[r := s.claims[r].(marked := true)])
    case CommitMarks(r, _) =>
      var ids := s.claims[r].ids;
      Release(s, r).(published := s.published + (set i | 0 <= i < |ids| :: ids[i]), marks := s.marks + ids)
    case Abort(r) => Release(s, r)
  }

  predicate IsRun(s: Relay, steps: seq<Step>)
    decreases |steps|
  {
    steps == [] || (Enabled(s, steps[0]) && IsRun(Exec(s, steps[0]), steps[1..]))
  }

  function Run(s: Relay, steps: seq<Step>): Relay
    requires IsRun(s, steps)
    decreases |steps|
  {
    if steps == [] then s else Run(Exec(s, steps[0]), steps[1..])
  }

  /** Some run leads from one state to the other. */
  ghost predicate Reaches(s: Relay, s': Relay) { exists steps :: IsRun(s, steps) && Run(s, steps) == s' }

  lemma {:induction false} ReachesItself(s: Relay)
    ensures Reaches(s, s)
  {
    assert IsRun(s, []) && Run(s, []) == s;
  }

  lemma {:induction false} ReachesNext(s: Relay, s': Relay, step: Step)
    requires Reaches(s, s') && Enabled(s', step)
    ensures Reaches(s, Exec(s', step))
  {
    var steps :| IsRun(s, steps) && Run(s, steps) == s';
    RunSnoc(s, steps, step);
  }

  lemma {:induction false} RunSnoc(s: Relay, steps: seq<Step>, step: Step)
    requires IsRun(s, steps) && Enabled(Run(s, steps), step)
    ensures IsRun(s, steps + [step]) && Run(s, steps + [step]) == Exec(Run(s, steps), step)
    decreases |steps|
  {
    if steps == [] {
      assert IsRun(Exec(s, step), []) && [step][1..] == [] && [] + [step] == [step];
    } else {
      RunSnoc(Exec(s, steps[0]), steps[1..], step);
      assert (steps + [step])[1..] == steps[1..] + [step];
    }
  }

  // --- The invariant ---

  ghost predicate InStream(stream: seq<Stored>, id: int) {
    exists k :: 0 <= k < |stream| && stream[k].msg.id == id
  }

  ghost predicate ClaimOk(s: Relay, c: Claim) { Locked(s.outbox, s.published, c) && SentOk(s.stream, c) }

  ghost predicate Locked(outbox: map<int, OutboxRow>, published: set<int>, c: Claim) {
    c.ids != [] && Distinct(c.ids) && forall id | id in c.ids :: id in outbox && id !in published
  }

  ghost predicate SentOk(stream: seq<Stored>, c: Claim) {
    && c.sent <= |c.ids| && (c.marked ==> c.sent == |c.ids|)
    && forall i | 0 <= i < c.sent :: InStream(stream, c.ids[i])
  }

  /** Live claims lock disjoint sets of rows. */
  ghost predicate Exclusive(claims: map<RelayId, Claim>) {
    forall r, q | r in claims && q in claims && r != q :: forall id | id in claims[r].ids :: id !in claims[q].ids
  }

  /** Copies of one message are at least a window apart. */
  ghost predicate Spaced(stream: seq<Stored>) {
    forall i, j | 0 <= i < j < |stream| && stream[i].msg.id == stream[j].msg.id :: stream[j].at - stream[i].at >= Window
  }

  /** Every stored message is an outbox row, word for word. */
  ghost predicate FromOutbox(prefix: string, outbox: map<int, OutboxRow>, stream: seq<Stored>) {
    forall k | 0 <= k < |stream| ::
      stream[k].msg.id in outbox && Conveys(stream[k].msg, prefix, stream[k].msg.id, outbox[stream[k].msg.id].event)
  }

  /** What is stored arrived then; what arrived was stored, or a copy was within the window. */
  ghost predicate ArrivalsOk(stream: seq<Stored>, arrivals: seq<Arrival>) {
    && (forall k {:trigger Arrived(arrivals, stream[k])} | 0 <= k < |stream| :: Arrived(arrivals, stream[k]))
    && (forall a {:trigger Seen(stream, a.id, a.at)} | a in arrivals :: Seen(stream, a.id, a.at))
  }

  ghost predicate Arrived(arrivals: seq<Arrival>, m: Stored) { Arrival(m.msg.id, m.at) in arrivals }

  ghost predicate MarksOk(outbox: map<int, OutboxRow>, stream: seq<Stored>, published: set<int>, marks: seq<int>) {
    && Distinct(marks) && (forall id :: id in marks <==> id in published)
    && (forall id | id in published :: id in outbox && InStream(stream, id))
  }

  ghost predicate Keyed(outbox: map<int, OutboxRow>) { forall id | id in outbox :: outbox[id].id == id }

  ghost predicate Inv(s: Relay) {
    && Keyed(s.outbox)
    && s.limbo <= s.outbox.Keys
    && (forall r | r in s.claims :: ClaimOk(s, s.claims[r]))
    && Exclusive(s.claims)
    && FromOutbox(s.prefix, s.outbox, s.stream) && ArrivalsOk(s.stream, s.arrivals) && Spaced(s.stream)
    && MarksOk(s.outbox, s.stream, s.published, s.marks)
  }

  lemma {:induction false} AddRowsFacts(outbox: map<int, OutboxRow>, rows: seq<OutboxRow>)
    requires Distinct(RowIds(rows)) && forall i | 0 <= i < |rows| :: rows[i].id !in outbox
    ensures var all := AddRows(outbox, rows);
            && (forall id | id in outbox :: id in all && all[id] == outbox[id])
            && (forall i | 0 <= i < |rows| :: rows[i].id in all && all[rows[i].id] == rows[i])
            && (forall id | id in all :: id in outbox || exists i :: 0 <= i < |rows| && rows[i].id == id)
  {
    if rows != [] {
      var front := rows[..|rows| - 1];
      assert forall i | 0 <= i < |front| :: RowIds(rows)[i] == RowIds(front)[i] == rows[i].id;
      assert RowIds(rows)[|front|] == rows[|front|].id;
      AddRowsFacts(outbox, front);
    }
  }

  lemma {:induction false} ProduceKeeps(s: Relay, rows: seq<OutboxRow>)
    requires Inv(s) && Enabled(s, Produce(rows))
    ensures Inv(Exec(s, Produce(rows)))
  {
    AddRowsFacts(s.outbox, rows);
    var s' := Exec(s, Produce(rows));
    forall id | id in s'.outbox ensures s'.outbox[id].id == id {
      if id !in s.outbox {
        var i :| 0 <= i < |rows| && rows[i].id == id;
      }
    }
    forall id | id in s'.limbo ensures id in s'.outbox {
      assert id in s.outbox;
    }
    forall r | r in s'.claims ensures ClaimOk(s', s'.claims[r]) {
      assert ClaimOk(s, s.claims[r]);
    }
  }

  lemma {:induction false} ReceiveStores(stream: seq<Stored>, arrivals: seq<Arrival>, msg: Message, now: Time)
    requires ArrivalsOk(stream, arrivals) && Spaced(stream) && !Seen(stream, msg.id, now)
    ensures var stream' := stream + [Stored(msg, now)];
            && Spaced(stream') && ArrivalsOk(stream', arrivals + [Arrival(msg.id, now)])
            && InStream(stream', msg.id) && forall id | InStream(stream, id) :: InStream(stream', id)
  {
    var stream' := stream + [Stored(msg, now)];
    assert stream'[|stream|] == Stored(msg, now);
    forall id | InStream(stream, id) ensures InStream(stream', id) {
      var k :| 0 <= k < |stream| && stream[k].msg.id == id;
      assert stream'[k] == stream[k];
    }
    forall k | 0 <= k < |stream'| ensures Arrived(arrivals + [Arrival(msg.id, now)], stream'[k]) {
      if k < |stream| {
        assert Arrived(arrivals, stream[k]);
      }
    }
    forall a | a in arrivals + [Arrival(msg.id, now)] ensures Seen(stream', a.id, a.at) {
      if a in arrivals {
        assert Seen(stream, a.id, a.at);
        var k :| 0 <= k < |stream| && stream[k].msg.id == a.id && a.at - stream[k].at < Window;
        assert stream'[k] == stream[k];
      }
    }
  }

  lemma {:induction false} ReceiveDuplicate(stream: seq<Stored>, arrivals: seq<Arrival>, id: int, now: Time)
    requires ArrivalsOk(stream, arrivals) && Seen(stream, id, now)
    ensures ArrivalsOk(stream, arrivals + [Arrival(id, now)]) && InStream(stream, id)
  {
    forall k | 0 <= k < |stream| ensures Arrived(arrivals + [Arrival(id, now)], stream[k]) {
      assert Arrived(arrivals, stream[k]);
    }
  }

  /** Receiving keeps the stream in order, keeps what was there, and gets the message in. */
  lemma {:induction false} ReceiveKeeps(s: Relay, id: int)
    requires Inv(s) && id in s.outbox
    ensures var s' := Receive(s, MessageOf(s.prefix, s.outbox[id])); Inv(s') && InStream(s'.stream, id)
  {
    var msg := MessageOf(s.prefix, s.outbox[id]);
    MessageConveys(s.prefix, s.outbox[id]);
    var s' := Receive(s, msg);
    if Seen(s.stream, id, s.clock) {
      ReceiveDuplicate(s.stream, s.arrivals, id, s.clock);
    } else {
      ReceiveStores(s.stream, s.arrivals, msg, s.clock);
    }
    StreamGrowthKeeps(s, s');
  }

  /** A larger stream over the same rows keeps every claim and mark. */
  lemma {:induction false} StreamGrowthKeeps(s: Relay, s': Relay)
    requires Inv(s) && FromOutbox(s.prefix, s.outbox, s'.stream) && Spaced(s'.stream)
    requires ArrivalsOk(s'.stream, s'.arrivals) && forall id | InStream(s.stream, id) :: InStream(s'.stream, id)
    requires s' == s.(stream := s'.stream, arrivals := s'.arrivals, clock := s'.clock)
    ensures Inv(s')
  {
    forall r | r in s.claims ensures ClaimOk(s', s.claims[r]) {
      assert ClaimOk(s, s.claims[r]);
    }
  }

  lemma {:induction false} ClaimUpdateKeeps(s: Relay, r: RelayId, c: Claim)
    requires Inv(s) && r in s.claims && c.ids == s.claims[r].ids && ClaimOk(s, c)
    ensures Inv(s.(claims := s.claims[r := c]))
  {
    var s' := s.(claims := s.claims[r := c]);
    forall q | q in s'.claims ensures ClaimOk(s', s'.claims[q]) {
      assert ClaimOk(s, if q == r then c else s.claims[q]);
    }
  }

  lemma {:induction false} ReleaseKeeps(s: Relay, r: RelayId, limbo: set<int>)
    requires Inv(s) && limbo <= s.outbox.Keys
    ensures Inv(Release(s, r).(limbo := limbo))
  {
    var s' := Release(s, r).(limbo := limbo);
    forall q | q in s'.claims ensures ClaimOk(s', s'.claims[q]) {
      assert ClaimOk(s, s.claims[q]);
    }
  }

  lemma {:induction false} ClaimKeeps(s: Relay, r: RelayId, ids: seq<int>)
    requires Inv(s) && Enabled(s, ClaimRows(r, ids))
    ensures Inv(Exec(s, ClaimRows(r, ids)))
  {
    if ids != [] {
      var s' := Exec(s, ClaimRows(r, ids));
      assert forall id | id in ids :: Claimable(s, id);
      forall q | q in s'.claims ensures ClaimOk(s', s'.claims[q]) {
        if q != r {
          assert ClaimOk(s, s.claims[q]);
        }
      }
    }
  }

  lemma {:induction false} OneMoreSent(stream: seq<Stored>, c: Claim)
    requires SentOk(stream, c) && !c.marked && c.sent < |c.ids| && InStream(stream, c.ids[c.sent])
    ensures SentOk(stream, c.(sent := c.sent + 1))
  {
  }

  lemma {:induction false} SentKeeps(s: Relay, r: RelayId)
    requires Inv(s) && r in s.claims && s.claims[r].sent < |s.claims[r].ids| && InStream(s.stream, s.claims[r].ids[s.claims[r].sent])
    ensures Inv(s.(claims := s.claims[r := s.claims[r].(sent := s.claims[r].sent + 1)]))
  {
    var c := s.claims[r];
    assert ClaimOk(s, c);
    OneMoreSent(s.stream, c);
    ClaimUpdateKeeps(s, r, c.(sent := c.sent + 1));
  }

  lemma {:induction false} PublishKeeps(s: Relay, r: RelayId, acked: bool)
    requires Inv(s) && Enabled(s, Publish(r, acked))
    ensures Inv(ExecPublish(s, r, acked))
  {
    var c := s.claims[r];
    assert ClaimOk(s, c);
    var id := c.ids[c.sent];
    if acked {
      ReceiveKeeps(s, id);
      SentKeeps(Receive(s, MessageOf(s.prefix, s.outbox[id])), r);
    } else {
      ReleaseKeeps(s, r, s.limbo + {id});
    }
  }

  lemma {:induction false} MarksAppend(s: Relay, ids: seq<int>)
    requires MarksOk(s.outbox, s.stream, s.published, s.marks)
    requires Distinct(ids) && forall id | id in ids :: id in s.outbox && id !in s.published && InStream(s.stream, id)
    ensures MarksOk(s.outbox, s.stream, s.published + (set i | 0 <= i < |ids| :: ids[i]), s.marks + ids)
  {
    var marks := s.marks + ids;
    forall i, j | 0 <= i < j < |marks| ensures marks[i] != marks[j] {
      if i < |s.marks| <= j {
        assert s.marks[i] in s.marks;
        assert marks[j] == ids[j - |s.marks|];
      }
    }
  }

  lemma {:induction false} CommitKeeps(s: Relay, r: RelayId, acked: bool)
    requires Inv(s) && Enabled(s, CommitMarks(r, acked))
    ensures Inv(Exec(s, CommitMarks(r, acked)))
  {
    var c := s.claims[r];
    assert ClaimOk(s, c);
    MarksAppend(s, c.ids);
    var s' := Exec(s, CommitMarks(r, acked));
    forall q | q in s'.claims ensures ClaimOk(s', s'.claims[q]) {
      assert ClaimOk(s, s.claims[q]);
    }
  }

  lemma {:induction false} StepKeepsInv(s: Relay, step: Step)
    requires Inv(s) && Enabled(s, step)
    ensures Inv(Exec(s, step))
  {
    match step
    case Produce(rows) => ProduceKeeps(s, rows);
    case BusTick(to) => StreamGrowthKeeps(s, s.(clock := to));
    case ClaimRows(r, ids) => ClaimKeeps(s, r, ids);
    case Publish(r, acked) => PublishKeeps(s, r, acked);
    case Arrive(id) => ReceiveKeeps(s, id);
    case Mark(r) =>
      assert ClaimOk(s, s.claims[r]);
      ClaimUpdateKeeps(s, r, s.claims[r].(marked := true));
    case CommitMarks(r, acked) => CommitKeeps(s, r, acked);
    case Abort(r) => ReleaseKeeps(s, r, s.limbo);
  }

  lemma {:induction false} RunKeepsInv(s: Relay, steps: seq<Step>)
    requires Inv(s) && IsRun(s, steps)
    ensures Inv(Run(s, steps))
    decreases |steps|
  {
    if steps != [] {
      StepKeepsInv(s, steps[0]);
      RunKeepsInv(Exec(s, steps[0]), steps[1..]);
    }
  }

  lemma {:induction false} ReachesKeepsInv(s: Relay, s': Relay)
    requires Inv(s) && Reaches(s, s')
    ensures Inv(s')
  {
    var steps :| IsRun(s, steps) && Run(s, steps) == s';
    RunKeepsInv(s, steps);
  }

  ghost predicate Reachable(s: Relay) { Reaches(NewRelay(s.prefix), s) }

  lemma {:induction false} ReachableInv(s: Relay)
    requires Reachable(s)
    ensures Inv(s)
  {
    ReachesKeepsInv(NewRelay(s.prefix), s);
  }

  // --- Theorems ---

  /** Replicas never hold the same row, and no row is ever marked twice. */
  lemma {:induction false} ReplicasExclude(s: Relay)
    requires Reachable(s)
    ensures forall r, q, id | r in s.claims && q in s.claims && id in s.claims[r].ids && id in s.claims[q].ids :: r == q
    ensures Distinct(s.marks) && forall id :: id in s.marks <==> id in s.published
  {
    ReachableInv(s);
  }

  /** The row a step newly marks was in the stream, word for word, before the step. */
  lemma {:induction false} StoredBeforeMarked(s: Relay, step: Step, id: int)
    requires Reachable(s) && Enabled(s, step) && id in Exec(s, step).published && id !in s.published
    ensures id in s.outbox && InStream(s.stream, id)
    ensures exists k :: 0 <= k < |s.stream| && Conveys(s.stream[k].msg, s.prefix, id, s.outbox[id].event)
  {
    ReachableInv(s);
    assert step.CommitMarks?;
    var c := s.claims[step.r];
    assert ClaimOk(s, c);
    var k :| 0 <= k < |s.stream| && s.stream[k].msg.id == id;
    assert Conveys(s.stream[k].msg, s.prefix, id, s.outbox[id].event);
  }

  /** The stream only grows, published rows stay published, outbox rows stay as they are. */
  lemma {:induction false} StepOnlyAdds(s: Relay, step: Step)
    requires Inv(s) && Enabled(s, step)
    ensures var s' := Exec(s, step);
            && s.stream <= s'.stream && s.published <= s'.published
            && forall id | id in s.outbox :: id in s'.outbox && s'.outbox[id] == s.outbox[id]
  {
    if step.Produce? {
      AddRowsFacts(s.outbox, step.rows);
    }
  }

  /**
   Exactly-once, exactly: a row that reached the stream has a single copy there if and only if
   every publish of it that reached the bus came within two minutes of the first copy.
   */
  lemma {:induction false} StoredOnceExactly(s: Relay, first: nat)
    requires Reachable(s) && first < |s.stream|
    requires forall k | 0 <= k < first :: s.stream[k].msg.id != s.stream[first].msg.id
    ensures (forall k | 0 <= k < |s.stream| && s.stream[k].msg.id == s.stream[first].msg.id :: k == first)
       <==> (forall a | a in s.arrivals && a.id == s.stream[first].msg.id :: a.at < s.stream[first].at + 120)
  {
    ReachableInv(s);
    var id := s.stream[first].msg.id;
    if forall a | a in s.arrivals && a.id == id :: a.at < s.stream[first].at + Window {
      forall k | 0 <= k < |s.stream| && s.stream[k].msg.id == id ensures k == first {
        assert Arrived(s.arrivals, s.stream[k]);
      }
    }
    if forall k | 0 <= k < |s.stream| && s.stream[k].msg.id == id :: k == first {
      forall a | a in s.arrivals && a.id == id ensures a.at < s.stream[first].at + Window {
        assert Seen(s.stream, a.id, a.at);
      }
    }
  }

  /** Whatever rollbacks and re-publishes happen, two copies of a row are two minutes apart. */
  lemma {:induction false} CopiesApart(s: Relay, i: nat, j: nat)
    requires Reachable(s) && i < j < |s.stream| && s.stream[i].msg.id == s.stream[j].msg.id
    ensures s.stream[j].at - s.stream[i].at >= 120
  {
    ReachableInv(s);
  }
}
