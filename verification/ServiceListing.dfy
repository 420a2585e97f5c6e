/** GET /services: filters, sort and order, cursors, and the listing a client can rely on. */
module ServiceListing {
  import opened Wrappers
  import opened Events
  import opened Aggregates
  import opened Ordering
  import opened Pagination
  import opened PageReads
  import opened Timelines
  import P = CommandProtocol
  import I = CommandIdentity
  import Catalog = CatalogDomain

  datatype SortField = ByCreatedAt | ByName

  /** A cursor as it arrives: unreadable, or the sort and order it was issued for and the last row's key. */
  datatype Cursor = Malformed | Cursor(sort: SortField, asc: bool, last: Key)

  /** A request; a sort or order that is not given is None. */
  datatype Query = Query(
    tenantId: Option<int>, lifecycle: Option<string>, tier: Option<int>,
    sort: Option<SortField>, asc: Option<bool>, limit: int, cursor: Option<Cursor>)

  datatype Filter = Filter(
    tenantId: Option<int>, lifecycle: Option<string>, tier: Option<int>,
    sort: SortField, asc: bool, limit: nat, cursor: Option<Cursor>)

  /** Limits outside 1 to 200 become 50; by default the newest service comes first. */
  function Normalised(q: Query): (f: Filter)
    ensures 1 <= f.limit <= 200
    ensures (f.tenantId, f.lifecycle, f.tier, f.cursor) == (q.tenantId, q.lifecycle, q.tier, q.cursor)
  {
    Filter(q.tenantId, q.lifecycle, q.tier,
           if q.sort.None? then ByCreatedAt else q.sort.value,
           q.asc.Some? && q.asc.value,
           if q.limit <= 0 || q.limit > 200 then 50 else q.limit,
           q.cursor)
  }

  /** The request a client sends for the next page: as before, with the cursor it was given. */
  function Next(q: Query, cursor: Cursor): Query { q.(cursor := Some(cursor)) }

  function Codes(s: string): seq<int> { seq(|s|, i requires 0 <= i < |s| => s[i] as int) }

  function RowKey(sort: SortField, r: Row): Key {
    Key(if sort == ByName then Codes(r.name) else [r.createdAt], r.id)
  }

  predicate Matches(f: Filter, r: Row) {
    && r.ServiceRow?
    && (f.tenantId.Some? ==> r.tenantId == f.tenantId.value)
    && (f.lifecycle.Some? ==> r.lifecycle == f.lifecycle.value)
    && (f.tier.Some? ==> r.tier == f.tier.value)
  }

  function Where(f: Filter): Row -> bool { r => Matches(f, r) }

  function OrderBy(f: Filter): Row -> Key { r => RowKey(f.sort, r) }

  function Id(n: int): AggId { ServiceId(n) }

  /** A cursor is accepted only for the sort and order it was issued for. */
  function DecodeCursor(f: Filter): (r: Result<Option<Key>>)
    ensures r.Err? <==> f.cursor.Some? && (f.cursor.value.Malformed? || (f.cursor.value.sort, f.cursor.value.asc) != (f.sort, f.asc))
  {
    if f.cursor.None? then Ok(None)
    else if f.cursor.value.Malformed? || f.cursor.value.sort != f.sort || f.cursor.value.asc != f.asc then Err(InvalidCursor)
    else Ok(Some(f.cursor.value.last))
  }

  function EncodeCursor(f: Filter, last: Key): Cursor { Cursor(f.sort, f.asc, last) }

  /**
   The next cursor continues the same listing, also when the sort and order are left to default,
   and no listing with another sort or order.
   */
  lemma {:induction false} CursorRoundTrip(q: Query, other: Query, last: Key)
    ensures DecodeCursor(Normalised(Next(q, EncodeCursor(Normalised(q), last)))) == Ok(Some(last))
    ensures var f, g := Normalised(q), Normalised(other);
            (f.sort, f.asc) != (g.sort, g.asc) ==> DecodeCursor(Normalised(Next(other, EncodeCursor(f, last)))) == Err(InvalidCursor)
  {
  }

  /** What a page says to the client: the services, and the cursor for the next request. */
  type Answer = (seq<Aggregate>, Option<Cursor>)

  function EncodeNext(f: Filter, next: Option<Key>): Option<Cursor> {
    if next.Some? then Some(EncodeCursor(f, next.value)) else None
  }

  function KeyIn(cursor: Option<Cursor>): Option<Key> {
    if cursor.Some? && cursor.value.Cursor? then Some(cursor.value.last) else None
  }

  /** The answer shows this page. */
  ghost predicate Shows(rows: map<AggId, Row>, f: Filter, a: Answer, page: Page) {
    Scanned(rows, Id, page.keys, a.0) && a.1 == EncodeNext(f, page.next)
  }

  /** The answer to the query over these rows: the page its cursor, limit, sort and order ask for. */
  ghost predicate Listed(rows: map<AggId, Row>, q: Query, a: Answer) {
    var f := Normalised(q);
    DecodeCursor(f).Ok? && Shows(rows, f, a, PageOf(Keys(rows, Where(f), OrderBy(f)), f.asc, f.limit, DecodeCursor(f).value))
  }

  // --- In terms of the query and of columns ---

  /** The row meets the conditions of the query. */
  predicate Wants(q: Query, r: Row) {
    && r.ServiceRow?
    && (q.tenantId == None || q.tenantId == Some(r.tenantId))
    && (q.lifecycle == None || q.lifecycle == Some(r.lifecycle))
    && (q.tier == None || q.tier == Some(r.tier))
  }

  /** One text comes before another where they first differ, or if it ends there. */
  ghost predicate TextBefore(a: string, b: string) {
    exists k :: 0 <= k < |b| && k <= |a| && a[..k] == b[..k] && (k == |a| || a[k] < b[k])
  }

  /** By name if asked for, otherwise by creation; ties by id. */
  ghost predicate Before(q: Query, r: Row, r': Row)
    requires r.ServiceRow? && r'.ServiceRow?
  {
    if q.sort == Some(ByName) then TextBefore(r.name, r'.name) || (r.name == r'.name && r.id < r'.id)
    else r.createdAt < r'.createdAt || (r.createdAt == r'.createdAt && r.id < r'.id)
  }

  /** Ascending only if asked for. */
  ghost predicate Comes(q: Query, r: Row, r': Row)
    requires r.ServiceRow? && r'.ServiceRow?
  {
    if q.asc == Some(true) then Before(q, r, r') else Before(q, r', r)
  }

  lemma {:induction false} MatchesExactly(q: Query, r: Row)
    ensures Matches(Normalised(q), r) <==> Wants(q, r)
  {
  }

  lemma {:induction false} CodesPrefix(a: string, b: string, k: nat)
    requires k <= |a| && k <= |b|
    ensures Codes(a)[..k] == Codes(b)[..k] <==> a[..k] == b[..k]
  {
    if Codes(a)[..k] == Codes(b)[..k] {
      forall i | 0 <= i < k ensures a[..k][i] == b[..k][i] {
        assert Codes(a)[..k][i] == Codes(b)[..k][i];
      }
    }
  }

  lemma {:induction false} CodesOrder(a: string, b: string)
    ensures SeqLess(Codes(a), Codes(b)) <==> TextBefore(a, b)
    ensures Codes(a) == Codes(b) <==> a == b
  {
    var x, y := Codes(a), Codes(b);
    SeqLessExactly(x, y);
    forall k: nat | k <= |a| && k <= |b| ensures x[..k] == y[..k] <==> a[..k] == b[..k] {
      CodesPrefix(a, b, k);
    }
    if TextBefore(a, b) {
      var k :| 0 <= k < |b| && k <= |a| && a[..k] == b[..k] && (k == |a| || a[k] < b[k]);
      assert x[..k] == y[..k] && (k == |x| || x[k] < y[k]);
    }
    if SeqLess(x, y) {
      var k :| 0 <= k < |y| && k <= |x| && x[..k] == y[..k] && (k == |x| || x[k] < y[k]);
      assert a[..k] == b[..k] && (k == |a| || a[k] < b[k]);
    }
    if x == y {
      CodesPrefix(a, b, |a|);
      assert a[..|a|] == a && b[..|a|] == b;
    }
  }

  lemma {:induction false} KeysInOrder(q: Query, r: Row, r': Row)
    requires r.ServiceRow? && r'.ServiceRow?
    ensures Precedes(Normalised(q).asc, RowKey(Normalised(q).sort, r), RowKey(Normalised(q).sort, r')) <==> Comes(q, r, r')
  {
    if q.sort == Some(ByName) {
      CodesOrder(r.name, r'.name);
      CodesOrder(r'.name, r.name);
    } else {
      NumberKeys(RowKey(ByCreatedAt, r), RowKey(ByCreatedAt, r'));
      NumberKeys(RowKey(ByCreatedAt, r'), RowKey(ByCreatedAt, r));
    }
  }

  /** The answer's i-th service is that of a row, with what the query asks for. */
  ghost predicate Fitting(rows: map<AggId, Row>, q: Query, a: Aggregate) {
    && a.Svc? && ServiceId(a.service.id) in rows && Scan(rows[ServiceId(a.service.id)]) == Ok(a)
    && rows[ServiceId(a.service.id)].ServiceRow?
    && (q.tenantId.Some? ==> a.service.tenant == q.tenantId.value)
    && (q.lifecycle.Some? ==> Catalog.LifecycleText(a.service.lifecycle) == q.lifecycle.value)
    && (q.tier.Some? ==> a.service.tier == q.tier.value)
  }

  ghost predicate AllFitting(rows: map<AggId, Row>, q: Query, services: seq<Aggregate>) {
    forall i | 0 <= i < |services| :: Fitting(rows, q, services[i])
  }

  ghost predicate InAskedOrder(rows: map<AggId, Row>, q: Query, services: seq<Aggregate>)
    requires AllFitting(rows, q, services)
  {
    forall i, j | 0 <= i < j < |services| ::
      Comes(q, rows[ServiceId(services[i].service.id)], rows[ServiceId(services[j].service.id)])
  }

  lemma {:induction false} AnswerRow(rows: map<AggId, Row>, q: Query, a: Answer, i: nat)
    requires Keyed(rows) && Listed(rows, q, a) && i < |a.0|
    ensures Fitting(rows, q, a.0[i])
    ensures var f := Normalised(q);
            var page := PageOf(Keys(rows, Where(f), OrderBy(f)), f.asc, f.limit, DecodeCursor(f).value);
            |page.keys| == |a.0| && page.keys[i] == RowKey(f.sort, rows[ServiceId(a.0[i].service.id)])
            && page.keys[i].id == a.0[i].service.id
  {
    var f := Normalised(q);
    PageRow(rows, Where(f), OrderBy(f), Id, f.asc, f.limit, DecodeCursor(f).value, i);
    var k := PageOf(Keys(rows, Where(f), OrderBy(f)), f.asc, f.limit, DecodeCursor(f).value).keys[i];
    var r := rows[ServiceId(k.id)];
    MatchesExactly(q, r);
    ScanColumns(r);
  }

  /** What a page of services is, on the query and the columns. */
  lemma {:induction false} PageExactly(rows: map<AggId, Row>, q: Query, a: Answer)
    requires Keyed(rows) && Listed(rows, q, a)
    ensures |a.0| <= if 1 <= q.limit <= 200 then q.limit else 50
    ensures AllFitting(rows, q, a.0) && InAskedOrder(rows, q, a.0)
    ensures q.cursor.None? && a.1.None? ==> forall id | id in rows && Wants(q, rows[id]) :: Among(rows, a.0, id)
  {
    var f := Normalised(q);
    var keys, cursor := Keys(rows, Where(f), OrderBy(f)), DecodeCursor(f).value;
    var page := PageOf(keys, f.asc, f.limit, cursor);
    forall i | 0 <= i < |a.0| ensures Fitting(rows, q, a.0[i]) {
      AnswerRow(rows, q, a, i);
    }
    PageFacts(keys, f.asc, f.limit, cursor);
    forall i, j | 0 <= i < j < |a.0|
      ensures Comes(q, rows[ServiceId(a.0[i].service.id)], rows[ServiceId(a.0[j].service.id)])
    {
      AnswerRow(rows, q, a, i);
      AnswerRow(rows, q, a, j);
      KeysInOrder(q, rows[ServiceId(a.0[i].service.id)], rows[ServiceId(a.0[j].service.id)]);
    }
    if q.cursor.None? && a.1.None? {
      forall id | id in rows && Wants(q, rows[id]) ensures Among(rows, a.0, id) {
        MatchesExactly(q, rows[id]);
        RowOnPage(rows, Where(f), OrderBy(f), f.asc, f.limit, cursor, id);
        var i :| 0 <= i < |page.keys| && page.keys[i] == RowKey(f.sort, rows[id]);
        AnswerRow(rows, q, a, i);
      }
    }
  }

  /** The row's service is among those. */
  ghost predicate Among(rows: map<AggId, Row>, services: seq<Aggregate>, id: AggId) {
    exists i :: 0 <= i < |services| && services[i].Svc? && ServiceId(services[i].service.id) == id
  }

  /** The table is indexed by its own ids. */
  predicate Keyed(rows: map<AggId, Row>) { forall id | id in rows :: IdOf(rows[id]) == id }

  /** One page of services. */
  method ListServices(rows: map<AggId, Row>, q: Query) returns (res: Result<Answer>)
    requires Keyed(rows)
    ensures res == Err(InvalidCursor) <==> DecodeCursor(Normalised(q)).Err?
    ensures res.Ok? ==> Listed(rows, q, res.value)
    ensures res.Ok? ==>
              && |res.value.0| <= (if 1 <= q.limit <= 200 then q.limit else 50)
              && AllFitting(rows, q, res.value.0) && InAskedOrder(rows, q, res.value.0)
    ensures (forall id | id in rows :: Stored(rows[id])) && DecodeCursor(Normalised(q)).Ok? ==> res.Ok?
  {
    var f := Normalised(q);
    var decoded := DecodeCursor(f);
    if decoded.Err? {
      return Err(InvalidCursor);
    }
    var page := ReadPage(rows, Where(f), OrderBy(f), Id, f.asc, f.limit, decoded.value);
    if page.Err? {
      return Err(page.error);
    }
    res := Ok((page.value.0, EncodeNext(f, page.value.1)));
    PageExactly(rows, q, res.value);
  }

  lemma {:induction false} SortColumnsIdentify(f: Filter)
    ensures Identifies(Where(f), OrderBy(f))
  {
  }

  /**
   A client pages through the services while commands commit, whatever versions their clients
   send. Services come in order, none twice, and one that matches at every read has been
   returned when the walk ends.
   */
  lemma {:induction false} WalkDuringCommands(dbs: seq<P.Db>, f: Filter, pages: seq<Page>)
    requires Timeline(dbs) && f.limit >= 1 && IsWalk(Tables(dbs, Where(f), OrderBy(f)), f.asc, f.limit, pages)
    ensures Ordered(f.asc, Returned(pages))
    ensures forall i, j | 0 <= i < j < |Returned(pages)| :: Returned(pages)[i].id != Returned(pages)[j].id
    ensures pages[|pages| - 1].next.None? ==>
              forall id | (forall i | 0 <= i < |dbs| :: id in dbs[i].rows && Matches(f, dbs[i].rows[id])) ::
                RowKey(f.sort, dbs[0].rows[id]) in Returned(pages)
  {
    SortColumnsIdentify(f);
    WalkDuringRun(dbs, Where(f), OrderBy(f), f.asc, f.limit, pages);
    if pages[|pages| - 1].next.None? {
      forall id | (forall i | 0 <= i < |dbs| :: id in dbs[i].rows && Matches(f, dbs[i].rows[id]))
        ensures RowKey(f.sort, dbs[0].rows[id]) in Returned(pages)
      {
        assert forall i | 0 <= i < |dbs| :: id in dbs[i].rows && Where(f)(dbs[i].rows[id]);
        assert OrderBy(f)(dbs[0].rows[id]) in Returned(pages);
      }
    }
  }

  // --- Successive requests ---

  /** The page behind the answer to a query, when it comes with that cursor. */
  ghost function PageWith(rows: map<AggId, Row>, q: Query, cursor: Option<Cursor>): Page {
    var f := Normalised(q);
    PageOf(Keys(rows, Where(f), OrderBy(f)), f.asc, f.limit, KeyIn(cursor))
  }

  /** The cursor does not matter to which services are selected. */
  lemma {:induction false} SameKeys(rows: map<AggId, Row>, f: Filter, g: Filter)
    requires g == f.(cursor := g.cursor)
    ensures Keys(rows, Where(f), OrderBy(f)) == Keys(rows, Where(g), OrderBy(g))
  {
  }

  lemma {:induction false} CallShows(rows: map<AggId, Row>, q: Query, cursor: Option<Cursor>, a: Answer)
    requires Listed(rows, q.(cursor := cursor), a)
    ensures Shows(rows, Normalised(q), a, PageWith(rows, q, cursor))
  {
    SameKeys(rows, Normalised(q), Normalised(q.(cursor := cursor)));
  }

  /** The cursor of the i-th request: none, then the one of the answer before. */
  function CursorAt(answers: seq<Answer>, i: nat): Option<Cursor>
    requires i < |answers|
  {
    if i == 0 then None else answers[i - 1].1
  }

  /** A client asks again while there is a cursor, each time of a later state. */
  ghost predicate Paged(dbs: seq<P.Db>, q: Query, answers: seq<Answer>) {
    && |answers| == |dbs| > 0
    && (forall i | 0 <= i < |dbs| :: Listed(dbs[i].rows, q.(cursor := CursorAt(answers, i)), answers[i]))
    && (forall i | 0 <= i < |dbs| - 1 :: answers[i].1.Some?)
  }

  /** Successive calls with the returned cursor are a walk, whose rows are the services returned. */
  lemma {:induction false} CallsAreWalk(dbs: seq<P.Db>, q: Query, answers: seq<Answer>) returns (pages: seq<Page>)
    requires Paged(dbs, q, answers)
    ensures var f := Normalised(q); IsWalk(Tables(dbs, Where(f), OrderBy(f)), f.asc, f.limit, pages)
    ensures forall i | 0 <= i < |dbs| :: Shows(dbs[i].rows, Normalised(q), answers[i], pages[i])
  {
    pages := seq(|dbs|, i requires 0 <= i < |dbs| => PageWith(dbs[i].rows, q, CursorAt(answers, i)));
    forall i | 0 <= i < |dbs| ensures Shows(dbs[i].rows, Normalised(q), answers[i], pages[i]) {
      CallShows(dbs[i].rows, q, CursorAt(answers, i), answers[i]);
    }
    PagesFollow(dbs, q, answers, pages);
  }

  lemma {:induction false} PagesFollow(dbs: seq<P.Db>, q: Query, answers: seq<Answer>, pages: seq<Page>)
    requires |answers| == |dbs| == |pages| > 0 && forall i | 0 <= i < |dbs| - 1 :: answers[i].1.Some?
    requires forall i | 0 <= i < |dbs| :: pages[i] == PageWith(dbs[i].rows, q, CursorAt(answers, i))
    requires forall i | 0 <= i < |dbs| :: Shows(dbs[i].rows, Normalised(q), answers[i], pages[i])
    ensures var f := Normalised(q); IsWalk(Tables(dbs, Where(f), OrderBy(f)), f.asc, f.limit, pages)
  {
    var f := Normalised(q);
    forall i | 0 <= i < |pages| ensures KeyIn(CursorAt(answers, i)) == Asked(pages, i) {
      if i > 0 {
        assert Shows(dbs[i - 1].rows, Normalised(q), answers[i - 1], pages[i - 1]);
      }
    }
    forall i | 0 <= i < |pages| - 1 ensures pages[i].next.Some? {
      assert Shows(dbs[i].rows, Normalised(q), answers[i], pages[i]);
    }
    var tables := Tables(dbs, Where(f), OrderBy(f));
    assert forall i | 0 <= i < |pages| :: ReadOn(tables, f.asc, f.limit, pages, i);
    PagesAreWalk(tables, f.asc, f.limit, pages);
  }

  // --- What the client has at the end ---

  /** All services of the answers, in order. */
  function ServicesOf(answers: seq<Answer>): seq<Aggregate> {
    if answers == [] then [] else ServicesOf(answers[..|answers| - 1]) + answers[|answers| - 1].0
  }

  ghost predicate SameIds(keys: seq<Key>, services: seq<Aggregate>) {
    |keys| == |services| && forall i | 0 <= i < |keys| :: services[i].Svc? && services[i].service.id == keys[i].id
  }

  lemma {:induction false} ShownIds(rows: map<AggId, Row>, keys: seq<Key>, services: seq<Aggregate>)
    requires Keyed(rows) && Scanned(rows, Id, keys, services)
    ensures SameIds(keys, services)
  {
    forall i | 0 <= i < |keys| ensures services[i].Svc? && services[i].service.id == keys[i].id {
      ScanColumns(rows[Id(keys[i].id)]);
    }
  }

  lemma {:induction false} AllIds(pages: seq<Page>, answers: seq<Answer>)
    requires |pages| == |answers| && forall i | 0 <= i < |pages| :: SameIds(pages[i].keys, answers[i].0)
    ensures SameIds(Returned(pages), ServicesOf(answers))
  {
    if pages != [] {
      var n := |pages| - 1;
      AllIds(pages[..n], answers[..n]);
      assert SameIds(pages[n].keys, answers[n].0);
    }
  }

  lemma {:induction false} TimelineKeyed(dbs: seq<P.Db>, i: nat)
    requires Timeline(dbs) && i < |dbs|
    ensures Keyed(dbs[i].rows)
  {
    TimelineInv(dbs, i);
    forall id | id in dbs[i].rows ensures IdOf(dbs[i].rows[id]) == id {
      assert I.RowFine(id, dbs[i].rows[id]);
    }
  }

  /** The pages behind the answers to a client, and the services on them. */
  lemma {:induction false} ClientPages(dbs: seq<P.Db>, q: Query, answers: seq<Answer>) returns (pages: seq<Page>)
    requires Timeline(dbs) && Paged(dbs, q, answers)
    ensures var f := Normalised(q); IsWalk(Tables(dbs, Where(f), OrderBy(f)), f.asc, f.limit, pages)
    ensures SameIds(Returned(pages), ServicesOf(answers))
    ensures pages[|pages| - 1].next.None? <==> answers[|answers| - 1].1.None?
  {
    pages := CallsAreWalk(dbs, q, answers);
    forall i | 0 <= i < |pages| ensures SameIds(pages[i].keys, answers[i].0) {
      assert Shows(dbs[i].rows, Normalised(q), answers[i], pages[i]);
      TimelineKeyed(dbs, i);
      ShownIds(dbs[i].rows, pages[i].keys, answers[i].0);
    }
    AllIds(pages, answers);
    assert Shows(dbs[|dbs| - 1].rows, Normalised(q), answers[|answers| - 1], pages[|pages| - 1]);
  }

  /** There at every read, and each time meeting the query. */
  ghost predicate WantedThroughout(dbs: seq<P.Db>, q: Query, id: AggId) {
    forall i | 0 <= i < |dbs| :: id in dbs[i].rows && Wants(q, dbs[i].rows[id])
  }

  ghost predicate Got(answers: seq<Answer>, id: AggId) {
    exists a :: a in ServicesOf(answers) && a.Svc? && ServiceId(a.service.id) == id
  }

  /**
   Whatever commands commit between the requests, a client that pages to the end gets only services
   that meet the query, none twice, and every service that meets it at each read.
   */
  lemma {:induction false} ClientWalk(dbs: seq<P.Db>, q: Query, answers: seq<Answer>)
    requires Timeline(dbs) && Paged(dbs, q, answers)
    ensures forall i | 0 <= i < |dbs| :: AllFitting(dbs[i].rows, q, answers[i].0)
    ensures forall a | a in ServicesOf(answers) :: a.Svc?
    ensures forall i, j | 0 <= i < j < |ServicesOf(answers)| ::
              ServicesOf(answers)[i].service.id != ServicesOf(answers)[j].service.id
    ensures answers[|answers| - 1].1.None? ==>
              forall id | WantedThroughout(dbs, q, id) ::
                Got(answers, id)
  {
    var pages := ClientPages(dbs, q, answers);
    var f := Normalised(q);
    WalkDuringCommands(dbs, f, pages);
    forall i | 0 <= i < |dbs| ensures AllFitting(dbs[i].rows, q, answers[i].0) {
      TimelineKeyed(dbs, i);
      PageExactly(dbs[i].rows, q.(cursor := CursorAt(answers, i)), answers[i]);
      FittingIgnoresCursor(dbs[i].rows, q, CursorAt(answers, i), answers[i].0);
    }
    if answers[|answers| - 1].1.None? {
      forall id | WantedThroughout(dbs, q, id)
        ensures Got(answers, id)
      {
        StayerIsReturned(dbs, q, answers, pages, id);
      }
    }
  }

  lemma {:induction false} FittingIgnoresCursor(rows: map<AggId, Row>, q: Query, cursor: Option<Cursor>, services: seq<Aggregate>)
    requires AllFitting(rows, q.(cursor := cursor), services)
    ensures AllFitting(rows, q, services)
  {
    forall i | 0 <= i < |services| ensures Fitting(rows, q, services[i]) {
      assert Fitting(rows, q.(cursor := cursor), services[i]);
    }
  }

  lemma {:induction false} StayerIsReturned(dbs: seq<P.Db>, q: Query, answers: seq<Answer>, pages: seq<Page>, id: AggId)
    requires Timeline(dbs) && SameIds(Returned(pages), ServicesOf(answers))
    requires var f := Normalised(q); IsWalk(Tables(dbs, Where(f), OrderBy(f)), f.asc, f.limit, pages) && pages[|pages| - 1].next.None?
    requires WantedThroughout(dbs, q, id)
    ensures Got(answers, id)
  {
    var f := Normalised(q);
    forall i | 0 <= i < |dbs| ensures id in dbs[i].rows && Matches(f, dbs[i].rows[id]) {
      MatchesExactly(q, dbs[i].rows[id]);
    }
    WalkDuringCommands(dbs, f, pages);
    TimelineKeyed(dbs, 0);
    var k := RowKey(f.sort, dbs[0].rows[id]);
    assert k in Returned(pages);
    var m :| 0 <= m < |Returned(pages)| && Returned(pages)[m] == k;
    assert ServicesOf(answers)[m] in ServicesOf(answers);
  }
}
