/** One relay replica at work: claiming a batch, publishing it, marking it, and draining the backlog. */
module RelayDrain {
  import opened Wrappers
  import opened Events
  import opened Ordering
  import opened RelayProtocol

  function RowKey(row: OutboxRow): Key { Key([row.createdAt], row.id) }

  function PendingKeys(s: Relay): set<Key> {
    set id | id in s.outbox && Claimable(s, id) :: RowKey(s.outbox[id])
  }

  function Ids(keys: seq<Key>): (ids: seq<int>)
    ensures |ids| == |keys|
  {
    seq(|keys|, i requires 0 <= i < |keys| => keys[i].id)
  }

  /** The claimable rows, oldest first, ties by id. */
  function Backlog(s: Relay): seq<int> { Ids(Listing(true, PendingKeys(s))) }

  /** The listing holds exactly the keys of claimable rows. */
  lemma {:induction false} ListedKeys(s: Relay, k: Key)
    requires Keyed(s.outbox)
    ensures k in Listing(true, PendingKeys(s)) <==> Claimable(s, k.id) && k == RowKey(s.outbox[k.id])
  {
    var list := Listing(true, PendingKeys(s));
    ListingFacts(true, PendingKeys(s));
    assert k in list <==> k in Elements(list);
  }

  lemma {:induction false} IdInPrefix(s: Relay, list: seq<Key>, k: Key, m: nat)
    requires Keyed(s.outbox) && m <= |list| && list == Listing(true, PendingKeys(s)) && k in list
    ensures k.id in Ids(list)[..m] <==> k in list[..m]
  {
    if k in list[..m] {
      var i :| 0 <= i < m && list[i] == k;
      assert Ids(list)[..m][i] == k.id;
    }
    if k.id in Ids(list)[..m] {
      var i :| 0 <= i < m && Ids(list)[..m][i] == k.id;
      ListedKeys(s, list[i]);
      ListedKeys(s, k);
      assert list[..m][i] == k;
    }
  }

  lemma {:induction false} BacklogFacts(s: Relay)
    requires Keyed(s.outbox)
    ensures Distinct(Backlog(s)) && forall id :: id in Backlog(s) <==> Claimable(s, id)
  {
    var list := Listing(true, PendingKeys(s));
    ListingFacts(true, PendingKeys(s));
    forall id ensures id in Ids(list) <==> Claimable(s, id) {
      if id in Ids(list) {
        var i :| 0 <= i < |list| && Ids(list)[i] == id;
        ListedKeys(s, list[i]);
      }
      if Claimable(s, id) {
        ListedKeys(s, RowKey(s.outbox[id]));
        var i :| 0 <= i < |list| && list[i] == RowKey(s.outbox[id]);
        assert Ids(list)[i] == id;
      }
    }
    forall i, j | 0 <= i < j < |list| ensures list[i].id != list[j].id {
      Total(true, list[i], list[j]);
      ListedKeys(s, list[i]);
      ListedKeys(s, list[j]);
    }
  }

  /** Oldest first, ties by id. */
  lemma {:induction false} BacklogOrder(s: Relay, i: nat, j: nat)
    requires Keyed(s.outbox) && i < j < |Backlog(s)|
    ensures var b := Backlog(s);
            && b[i] in s.outbox && b[j] in s.outbox
            && (s.outbox[b[i]].createdAt < s.outbox[b[j]].createdAt
                || (s.outbox[b[i]].createdAt == s.outbox[b[j]].createdAt && b[i] < b[j]))
  {
    var list := Listing(true, PendingKeys(s));
    ListingFacts(true, PendingKeys(s));
    ListedKeys(s, list[i]);
    ListedKeys(s, list[j]);
    assert Precedes(true, list[i], list[j]);
    NumberKeys(list[i], list[j]);
  }

  lemma {:induction false} PendingKey(s: Relay, k: Key)
    requires Keyed(s.outbox)
    ensures k in PendingKeys(s) <==> Claimable(s, k.id) && k == RowKey(s.outbox[k.id])
  {
  }

  lemma {:induction false} PendingAfter(s: Relay, s': Relay, m: nat)
    requires Keyed(s.outbox) && m <= |Backlog(s)| && s'.outbox == s.outbox && s'.claims == s.claims
    requires forall id :: id in s'.published <==> id in s.published || id in Backlog(s)[..m]
    ensures PendingKeys(s') == PendingKeys(s) - Elements(Listing(true, PendingKeys(s))[..m])
  {
    var list := Listing(true, PendingKeys(s));
    forall k ensures k in PendingKeys(s') <==> k in PendingKeys(s) - Elements(list[..m]) {
      PendingKey(s, k);
      PendingKey(s', k);
      ListedKeys(s, k);
      if k in list {
        IdInPrefix(s, list, k, m);
      }
    }
  }

  /** Once the first m rows are marked, the rest of the backlog is the backlog. */
  lemma {:induction false} BacklogShrinks(s: Relay, s': Relay, m: nat)
    requires Keyed(s.outbox) && m <= |Backlog(s)| && s'.outbox == s.outbox && s'.claims == s.claims
    requires forall id :: id in s'.published <==> id in s.published || id in Backlog(s)[..m]
    ensures Backlog(s') == Backlog(s)[m..]
  {
    var list := Listing(true, PendingKeys(s));
    PendingAfter(s, s', m);
    ListingRest(true, PendingKeys(s), list, m);
    assert Ids(list[m..]) == Ids(list)[m..];
  }

  /** The ids of the messages that reached the bus, in order. */
  function ArrivedIds(s: Relay): seq<int> {
    seq(|s.arrivals|, i requires 0 <= i < |s.arrivals| => s.arrivals[i].id)
  }

  /** How a commit ends for the replica: an answer may get lost after the commit took effect. */
  datatype Ending = Committed | Failed | AnswerLost

  class OutboxRelay {
    var st: Relay
    const batch: int

    /** The state the relay started from; everything since is a run of the protocol. */
    ghost const origin: Relay

    /** A batch size that is not positive becomes 100. */
    constructor (st: Relay, batch: int)
      requires Keyed(st.outbox)
      ensures this.st == st && origin == st && Valid()
      ensures this.batch == if batch <= 0 then 100 else batch
    {
      this.st, this.batch := st, if batch <= 0 then 100 else batch;
      origin := st;
      ReachesItself(st);
    }

    ghost predicate Valid()
      reads this
    {
      batch >= 1 && Keyed(st.outbox) && Reaches(origin, st)
    }

    method Take(s: Step)
      requires Valid() && Enabled(st, s) && !s.Produce?
      modifies this
      ensures Valid() && st == Exec(old(st), s)
    {
      ReachesNext(origin, st, s);
      st := Exec(st, s);
    }

    /** Publishes the claimed rows in turn, until all are out or one fails. */
    method PublishAll(r: RelayId, ids: seq<int>, deliver: OutboxRow -> bool) returns (ok: bool, ghost sent: nat)
      requires Valid() && r in st.claims && st.claims[r] == Claim(ids, 0, false)
      requires forall i | 0 <= i < |ids| :: ids[i] in st.outbox
      modifies this
      ensures Valid() && Publishing(old(st), st, r, ids, sent, ok)
      ensures ok ==> sent == |ids| && Taken(old(st), ids, deliver, |ids|)
      ensures !ok ==> sent < |ids| && !deliver(old(st).outbox[ids[sent]])
    {
      ghost var s0 := st;
      sent := 0;
      PublishingStarts(st, r, ids);
      for i := 0 to |ids|
        invariant Valid() && Publishing(s0, st, r, ids, i, true) && sent == i
        invariant Taken(s0, ids, deliver, i)
      {
        if !deliver(st.outbox[ids[i]]) {
          PublishingFails(s0, st, r, ids, i);
          Take(Publish(r, false));
          return false, sent;
        }
        PublishingGoesOn(s0, st, r, ids, i);
        Take(Publish(r, true));
        sent := sent + 1;
      }
      ok := true;
    }

    /**
     Claims up to `limit` rows, publishes them in order, marks them and commits. Either the whole
     batch is marked and counted, or the error is returned and nothing is marked, except that a
     commit whose answer is lost leaves the batch marked and not counted.
     */
    method ClaimBatch(r: RelayId, limit: nat, deliver: OutboxRow -> bool, ending: Ending)
      returns (n: nat, err: Option<Error>, ghost sent: nat, ghost marked: nat)
      requires Valid() && r !in st.claims
      modifies this
      ensures Valid() && BatchDone(old(st), st, BatchSize(old(st), limit), sent, marked)
      ensures if err.None? then n == sent == marked == BatchSize(old(st), limit) else n == 0 && (marked == 0 || ending.AnswerLost?)
      ensures ending.Committed? && Delivers(old(st), deliver, BatchSize(old(st), limit)) ==> err.None?
      ensures err.None? ==> n == (if |Backlog(old(st))| < limit then |Backlog(old(st))| else limit) && Accepted(old(st), deliver, n)
    {
      ghost var s0 := st;
      var ids := Backlog(st)[..BatchSize(st, limit)];
      marked := 0;
      if ids == [] {
        NothingToClaim(s0);
        return 0, None, 0, 0;
      }
      CanClaim(st, r, ids);
      Take(ClaimRows(r, ids));
      ghost var s1 := st;
      var ok;
      ok, sent := PublishAll(r, ids, deliver);
      if !ok {
        assert ids[sent] in ids;
        BatchFailed(s0, s1, st, r, ids, sent);
        return 0, Some(Unavailable), sent, 0;
      }
      ghost var s2 := st;
      Take(Mark(r));
      if ending.Failed? {
        Take(Abort(r));
        BatchFailed(s0, s1, st, r, ids, sent);
        return 0, Some(Unavailable), sent, 0;
      }
      AllDelivered(s0, ids, deliver);
      Take(CommitMarks(r, ending.Committed?));
      BatchCommitted(s0, s1, s2, st, r, ids);
      marked := |ids|;
      if ending.AnswerLost? {
        return 0, Some(Unavailable), sent, marked;
      }
      return |ids|, None, sent, marked;
    }

    /** The next batch of a drain that began in s0 and has marked `total` rows so far. */
    method DrainBatch(r: RelayId, deliver: OutboxRow -> bool, ending: Ending, ghost s0: Relay, ghost total: nat)
      returns (n: nat, err: Option<Error>, ghost sent: nat, ghost marked: nat)
      requires Valid() && r !in st.claims && Drained(s0, st, total, total)
      modifies this
      ensures Valid() && Drained(s0, st, total + marked, total + sent) && sent <= batch && n <= batch && r !in st.claims
      ensures if err.None? then n == sent == marked else n == 0 && (marked == 0 || ending.AnswerLost?)
      ensures err.None? && n < batch ==> total + n == |Backlog(s0)|
      ensures ending.Committed? && Delivers(s0, deliver, |Backlog(s0)|) ==> err.None?
      ensures err.None? && Accepted(s0, deliver, total) ==> Accepted(s0, deliver, total + n)
    {
      ghost var s1, m := st, BatchSize(st, batch);
      ShortBatch(s0, s1, total, batch);
      DeliversRest(s0, s1, deliver, total, m);
      n, err, sent, marked := ClaimBatch(r, batch, deliver, ending);
      DrainGoesOn(s0, s1, st, total, m, sent, marked);
      DeliveredSoFar(s0, s1, deliver, total, n);
    }

    /**
     Drains batch after batch until one comes back short. Total and exact: it always returns,
     with the number of rows it marked, short of a last batch whose commit answer was lost;
     without an error that is the whole backlog, each row sent once, oldest first; after an error
     with truthful answers the failing batch is entirely unmarked.
     */
    method DrainOnce(r: RelayId, deliver: OutboxRow -> bool, endings: nat -> Ending)
      returns (total: nat, err: Option<Error>, ghost sent: nat, ghost marked: nat)
      requires Valid() && r !in st.claims
      modifies this
      ensures Valid() && Drained(old(st), st, marked, sent) && total <= marked && sent <= total + batch
      ensures (forall i :: !endings(i).AnswerLost?) ==> total == marked
      ensures err.None? ==> total == marked == sent == |Backlog(old(st))|
      ensures (forall i :: endings(i).Committed?) && Delivers(old(st), deliver, |Backlog(old(st))|) ==> err.None?
      ensures err.None? ==> Accepted(old(st), deliver, |Backlog(old(st))|)
    {
      ghost var s0 := st;
      total, sent, marked := 0, 0, 0;
      NothingDrained(st);
      NothingAccepted(st, deliver);
      while true
        invariant Valid() && Drained(s0, st, total, total) && sent == marked == total && r !in st.claims
        invariant Accepted(s0, deliver, total)
        decreases |Backlog(s0)| - total
      {
        var n;
        ghost var more, done;
        n, err, more, done := DrainBatch(r, deliver, endings(total), s0, total);
        total, sent, marked := total + n, sent + more, marked + done;
        if err.Some? || n < batch {
          return total, err, sent, marked;
        }
      }
    }
  }

  /** The bus took the first n of these. */
  ghost predicate Taken(s: Relay, ids: seq<int>, deliver: OutboxRow -> bool, n: nat) {
    n <= |ids| && forall i | 0 <= i < n :: ids[i] in s.outbox && deliver(s.outbox[ids[i]])
  }

  /** i of the claimed rows have reached the bus, in order; nothing else changed but the claim. */
  ghost predicate Publishing(s: Relay, s': Relay, r: RelayId, ids: seq<int>, i: nat, held: bool) {
    && i <= |ids| && s'.outbox == s.outbox && s'.published == s.published && s'.marks == s.marks
    && ArrivedIds(s') == ArrivedIds(s) + ids[..i]
    && s'.claims == if held then s.claims[r := Claim(ids, i, false)] else s.claims - {r}
  }

  lemma {:induction false} PublishingStarts(s: Relay, r: RelayId, ids: seq<int>)
    requires r in s.claims && s.claims[r] == Claim(ids, 0, false)
    ensures Publishing(s, s, r, ids, 0, true)
  {
  }

  lemma {:induction false} PublishingGoesOn(s: Relay, s1: Relay, r: RelayId, ids: seq<int>, i: nat)
    requires Keyed(s.outbox) && Publishing(s, s1, r, ids, i, true) && i < |ids| && ids[i] in s.outbox
    ensures Enabled(s1, Publish(r, true)) && Publishing(s, Exec(s1, Publish(r, true)), r, ids, i + 1, true)
  {
    var s2 := Exec(s1, Publish(r, true));
    assert ArrivedIds(s2) == ArrivedIds(s1) + [ids[i]];
    assert ids[..i + 1] == ids[..i] + [ids[i]];
  }

  lemma {:induction false} PublishingFails(s: Relay, s1: Relay, r: RelayId, ids: seq<int>, i: nat)
    requires Publishing(s, s1, r, ids, i, true) && i < |ids| && ids[i] in s.outbox
    ensures Enabled(s1, Publish(r, false)) && Publishing(s, Exec(s1, Publish(r, false)), r, ids, i, false)
  {
  }

  lemma {:induction false} CanClaim(s: Relay, r: RelayId, ids: seq<int>)
    requires Keyed(s.outbox) && r !in s.claims && ids <= Backlog(s) && ids != []
    ensures Enabled(s, ClaimRows(r, ids)) && forall id | id in ids :: id in s.outbox
  {
    BacklogFacts(s);
    assert forall id | id in ids :: id in Backlog(s);
  }

  function BatchSize(s: Relay, limit: nat): (m: nat)
    ensures m <= |Backlog(s)|
  {
    if limit <= |Backlog(s)| then limit else |Backlog(s)|
  }

  /** The bus accepts each of the first m rows of the backlog. */
  ghost predicate Delivers(s: Relay, deliver: OutboxRow -> bool, m: nat)
    requires m <= |Backlog(s)|
  {
    forall id | id in Backlog(s)[..m] :: id in s.outbox && deliver(s.outbox[id])
  }

  /** There are that many, and the bus accepts them. */
  ghost predicate Accepted(s: Relay, deliver: OutboxRow -> bool, m: nat) { m <= |Backlog(s)| && Delivers(s, deliver, m) }

  /** One batch of m rows: all marked, or none; `sent` of them reached the bus, in order. */
  ghost predicate BatchDone(s: Relay, s': Relay, m: nat, sent: nat, marked: nat) {
    var backlog := Backlog(s);
    && s'.outbox == s.outbox && s'.claims == s.claims && sent <= m <= |backlog|
    && ArrivedIds(s') == ArrivedIds(s) + backlog[..sent]
    && (marked == 0 || marked == sent == m)
    && s'.marks == s.marks + backlog[..marked] && Backlog(s') == backlog[marked..]
  }

  /** Since s, exactly the first `total` rows of the backlog were marked and the first `sent` sent. */
  ghost predicate Drained(s: Relay, s': Relay, total: nat, sent: nat) {
    var backlog := Backlog(s);
    && s'.outbox == s.outbox && s'.claims == s.claims && total <= sent <= |backlog|
    && s'.marks == s.marks + backlog[..total] && Backlog(s') == backlog[total..]
    && ArrivedIds(s') == ArrivedIds(s) + backlog[..sent]
  }

  lemma {:induction false} NothingDrained(s: Relay)
    ensures Drained(s, s, 0, 0)
  {
  }

  lemma {:induction false} NothingAccepted(s: Relay, deliver: OutboxRow -> bool)
    ensures Accepted(s, deliver, 0)
  {
    assert Backlog(s)[..0] == [];
  }

  lemma {:induction false} DrainGoesOn(s: Relay, s1: Relay, s2: Relay, total: nat, m: nat, more: nat, done: nat)
    requires Drained(s, s1, total, total) && BatchDone(s1, s2, m, more, done)
    ensures Drained(s, s2, total + done, total + more)
  {
    Joins(s.marks, Backlog(s), total, done);
    Joins(ArrivedIds(s), Backlog(s), total, more);
  }

  lemma {:induction false} Joins(before: seq<int>, ids: seq<int>, m: nat, n: nat)
    requires m + n <= |ids|
    ensures before + ids[..m] + ids[m..][..n] == before + ids[..m + n] && ids[m..][n..] == ids[m + n..]
  {
    assert ids[..m + n] == ids[..m] + ids[m..][..n];
  }

  /** A short batch is the last one. */
  lemma {:induction false} ShortBatch(s: Relay, s1: Relay, total: nat, limit: nat)
    requires Drained(s, s1, total, total)
    ensures BatchSize(s1, limit) <= limit && (BatchSize(s1, limit) < limit ==> total + BatchSize(s1, limit) == |Backlog(s)|)
  {
  }

  lemma {:induction false} DeliversRest(s: Relay, s1: Relay, deliver: OutboxRow -> bool, total: nat, m: nat)
    requires Drained(s, s1, total, total) && m <= |Backlog(s1)|
    ensures Delivers(s, deliver, |Backlog(s)|) ==> Delivers(s1, deliver, m)
  {
    var backlog := Backlog(s);
    assert backlog[..|backlog|] == backlog;
    assert forall id | id in backlog[total..][..m] :: id in backlog;
  }

  lemma {:induction false} AllDelivered(s: Relay, ids: seq<int>, deliver: OutboxRow -> bool)
    requires |ids| <= |Backlog(s)| && ids == Backlog(s)[..|ids|]
    requires Taken(s, ids, deliver, |ids|)
    ensures Accepted(s, deliver, |ids|)
  {
  }

  lemma {:induction false} DeliveredSoFar(s: Relay, s1: Relay, deliver: OutboxRow -> bool, total: nat, m: nat)
    requires Drained(s, s1, total, total)
    ensures Accepted(s, deliver, total) && Accepted(s1, deliver, m) ==> Accepted(s, deliver, total + m)
  {
    var backlog := Backlog(s);
    if m <= |Backlog(s1)| {
      assert backlog[..total + m] == backlog[..total] + backlog[total..][..m];
    }
  }

  lemma {:induction false} NothingToClaim(s: Relay)
    ensures BatchDone(s, s, 0, 0, 0)
  {
  }

  lemma {:induction false} BatchFailed(s: Relay, s1: Relay, s': Relay, r: RelayId, ids: seq<int>, sent: nat)
    requires r !in s.claims && ids <= Backlog(s) && s1 == s.(claims := s.claims[r := Claim(ids, 0, false)])
    requires Publishing(s1, s', r, ids, sent, false)
    ensures BatchDone(s, s', |ids|, sent, 0)
  {
    assert s'.claims == s.claims;
    assert PendingKeys(s') == PendingKeys(s);
    assert ids[..sent] == Backlog(s)[..sent];
  }

  lemma {:induction false} BatchCommitted(s: Relay, s1: Relay, s2: Relay, s': Relay, r: RelayId, ids: seq<int>)
    requires Keyed(s.outbox) && r !in s.claims && ids <= Backlog(s) && s1 == s.(claims := s.claims[r := Claim(ids, 0, false)])
    requires Publishing(s1, s2, r, ids, |ids|, true)
    requires s'.published == s2.published + (set i | 0 <= i < |ids| :: ids[i]) && s'.marks == s2.marks + ids
    requires s'.outbox == s2.outbox && s'.arrivals == s2.arrivals && s'.claims == s2.claims - {r}
    ensures BatchDone(s, s', |ids|, |ids|, |ids|)
  {
    assert s'.claims == s.claims;
    assert ids == Backlog(s)[..|ids|];
    BacklogShrinks(s, s', |ids|);
  }

  /** An empty backlog and no other replica at work: everything committed has been published. */
  lemma {:induction false} DrainedMeansPublished(s: Relay)
    requires Inv(s) && s.claims == map[] && Backlog(s) == []
    ensures forall id | id in s.outbox ::
              id in s.published && exists m :: 0 <= m < |s.stream| && Conveys(s.stream[m].msg, s.prefix, id, s.outbox[id].event)
  {
    BacklogFacts(s);
    forall id | id in s.outbox
      ensures id in s.published && exists m :: 0 <= m < |s.stream| && Conveys(s.stream[m].msg, s.prefix, id, s.outbox[id].event)
    {
      assert id !in Backlog(s);
      assert InStream(s.stream, id);
      var m :| 0 <= m < |s.stream| && s.stream[m].msg.id == id;
      assert Conveys(s.stream[m].msg, s.prefix, id, s.outbox[id].event);
    }
  }
}
