/** GET /tenants: the same page walk, with cursors that do not remember the order they were issued for. */
module TenantListing {
  import opened Wrappers
  import opened Events
  import opened Aggregates
  import opened Ordering
  import opened Pagination
  import opened PageReads
  import opened Timelines
  import P = CommandProtocol
  import I = CommandIdentity
  import Tenants = TenantDomain

  /** A cursor as it arrives: unreadable, or the last row's key. */
  datatype Cursor = Malformed | Cursor(last: Key)

  datatype Query = Query(status: Option<string>, plan: Option<string>, asc: Option<bool>, limit: int, cursor: Option<Cursor>)

  datatype Filter = Filter(status: Option<string>, plan: Option<string>, asc: bool, limit: nat, cursor: Option<Cursor>)

  /** Limits outside 1 to 200 become 50; by default the newest tenant comes first. */
  function Normalised(q: Query): (f: Filter)
    ensures 1 <= f.limit <= 200 && (f.status, f.plan, f.cursor) == (q.status, q.plan, q.cursor)
  {
    Filter(q.status, q.plan, q.asc.Some? && q.asc.value, if q.limit <= 0 || q.limit > 200 then 50 else q.limit, q.cursor)
  }

  function RowKey(r: Row): Key { Key([r.createdAt], r.id) }

  predicate Matches(f: Filter, r: Row) {
    && r.TenantRow?
    && (f.status.Some? ==> r.status == f.status.value)
    && (f.plan.Some? ==> r.plan == f.plan.value)
  }

  function Where(f: Filter): Row -> bool { r => Matches(f, r) }

  function OrderBy(): Row -> Key { r => RowKey(r) }

  function Id(n: int): AggId { TenantId(n) }

  /** Any readable cursor is accepted, whatever order it was issued for. */
  function DecodeCursor(f: Filter): (r: Result<Option<Key>>)
    ensures r.Err? <==> f.cursor == Some(Malformed)
  {
    if f.cursor.None? then Ok(None)
    else if f.cursor.value.Malformed? then Err(InvalidCursor)
    else Ok(Some(f.cursor.value.last))
  }

  function EncodeCursor(last: Key): Cursor { Cursor(last) }

  /** What a page says to the client: the tenants, and the cursor for the next request. */
  type Answer = (seq<Aggregate>, Option<Cursor>)

  function EncodeNext(next: Option<Key>): Option<Cursor> { if next.Some? then Some(EncodeCursor(next.value)) else None }

  function KeyIn(cursor: Option<Cursor>): Option<Key> {
    if cursor.Some? && cursor.value.Cursor? then Some(cursor.value.last) else None
  }

  /** The answer shows this page. */
  ghost predicate Shows(rows: map<AggId, Row>, a: Answer, page: Page) {
    Scanned(rows, Id, page.keys, a.0) && a.1 == EncodeNext(page.next)
  }

  /** The answer to the query over these rows: the page its cursor, limit and order ask for. */
  ghost predicate Listed(rows: map<AggId, Row>, q: Query, a: Answer) {
    var f := Normalised(q);
    DecodeCursor(f).Ok? && Shows(rows, a, PageOf(Keys(rows, Where(f), OrderBy()), f.asc, f.limit, DecodeCursor(f).value))
  }

  // --- In terms of the query and of columns ---

  /** The row meets the conditions of the query. */
  predicate Wants(q: Query, r: Row) {
    && r.TenantRow?
    && (q.status == None || q.status == Some(r.status))
    && (q.plan == None || q.plan == Some(r.plan))
  }

  /** By creation, ties by id; ascending only if asked for. */
  ghost predicate Comes(q: Query, r: Row, r': Row) {
    var (first, second) := if q.asc == Some(true) then (r, r') else (r', r);
    first.createdAt < second.createdAt || (first.createdAt == second.createdAt && first.id < second.id)
  }

  lemma {:induction false} MatchesExactly(q: Query, r: Row)
    ensures Matches(Normalised(q), r) <==> Wants(q, r)
  {
  }

  lemma {:induction false} KeysInOrder(q: Query, r: Row, r': Row)
    ensures Precedes(Normalised(q).asc, RowKey(r), RowKey(r')) <==> Comes(q, r, r')
  {
    NumberKeys(RowKey(r), RowKey(r'));
    NumberKeys(RowKey(r'), RowKey(r));
  }

  /** The answer's i-th tenant is that of a row, with what the query asks for. */
  ghost predicate Fitting(rows: map<AggId, Row>, q: Query, a: Aggregate) {
    && a.Ten? && TenantId(a.tenant.id) in rows && Scan(rows[TenantId(a.tenant.id)]) == Ok(a)
    && rows[TenantId(a.tenant.id)].TenantRow?
    && (q.status.Some? ==> Tenants.StatusText(a.tenant.status) == q.status.value)
    && (q.plan.Some? ==> Tenants.PlanText(a.tenant.plan) == q.plan.value)
  }

  ghost predicate AllFitting(rows: map<AggId, Row>, q: Query, tenants: seq<Aggregate>) {
    forall i | 0 <= i < |tenants| :: Fitting(rows, q, tenants[i])
  }

  ghost predicate InAskedOrder(rows: map<AggId, Row>, q: Query, tenants: seq<Aggregate>)
    requires AllFitting(rows, q, tenants)
  {
    forall i, j | 0 <= i < j < |tenants| ::
      Comes(q, rows[TenantId(tenants[i].tenant.id)], rows[TenantId(tenants[j].tenant.id)])
  }

  lemma {:induction false} AnswerRow(rows: map<AggId, Row>, q: Query, a: Answer, i: nat)
    requires Keyed(rows) && Listed(rows, q, a) && i < |a.0|
    ensures Fitting(rows, q, a.0[i])
    ensures var f := Normalised(q);
            var page := PageOf(Keys(rows, Where(f), OrderBy()), f.asc, f.limit, DecodeCursor(f).value);
            |page.keys| == |a.0| && page.keys[i] == RowKey(rows[TenantId(a.0[i].tenant.id)])
            && page.keys[i].id == a.0[i].tenant.id
  {
    var f := Normalised(q);
    PageRow(rows, Where(f), OrderBy(), Id, f.asc, f.limit, DecodeCursor(f).value, i);
    var k := PageOf(Keys(rows, Where(f), OrderBy()), f.asc, f.limit, DecodeCursor(f).value).keys[i];
    var r := rows[TenantId(k.id)];
    MatchesExactly(q, r);
    ScanColumns(r);
  }

  /** What a page of tenants is, on the query and the columns. */
  lemma {:induction false} PageExactly(rows: map<AggId, Row>, q: Query, a: Answer)
    requires Keyed(rows) && Listed(rows, q, a)
    ensures |a.0| <= if 1 <= q.limit <= 200 then q.limit else 50
    ensures AllFitting(rows, q, a.0) && InAskedOrder(rows, q, a.0)
    ensures q.cursor.None? && a.1.None? ==> forall id | id in rows && Wants(q, rows[id]) :: Among(rows, a.0, id)
  {
    var f := Normalised(q);
    var keys, cursor := Keys(rows, Where(f), OrderBy()), DecodeCursor(f).value;
    var page := PageOf(keys, f.asc, f.limit, cursor);
    forall i | 0 <= i < |a.0| ensures Fitting(rows, q, a.0[i]) {
      AnswerRow(rows, q, a, i);
    }
    PageFacts(keys, f.asc, f.limit, cursor);
    forall i, j | 0 <= i < j < |a.0|
      ensures Comes(q, rows[TenantId(a.0[i].tenant.id)], rows[TenantId(a.0[j].tenant.id)])
    {
      AnswerRow(rows, q, a, i);
      AnswerRow(rows, q, a, j);
      KeysInOrder(q, rows[TenantId(a.0[i].tenant.id)], rows[TenantId(a.0[j].tenant.id)]);
    }
    if q.cursor.None? && a.1.None? {
      forall id | id in rows && Wants(q, rows[id]) ensures Among(rows, a.0, id) {
        MatchesExactly(q, rows[id]);
        RowOnPage(rows, Where(f), OrderBy(), f.asc, f.limit, cursor, id);
        var i :| 0 <= i < |page.keys| && page.keys[i] == RowKey(rows[id]);
        AnswerRow(rows, q, a, i);
      }
    }
  }

  /** The row's tenant is among those. */
  ghost predicate Among(rows: map<AggId, Row>, tenants: seq<Aggregate>, id: AggId) {
    exists i :: 0 <= i < |tenants| && tenants[i].Ten? && TenantId(tenants[i].tenant.id) == id
  }

  /** The table is indexed by its own ids. */
  predicate Keyed(rows: map<AggId, Row>) { forall id | id in rows :: IdOf(rows[id]) == id }

  /** One page of tenants. */
  method ListTenants(rows: map<AggId, Row>, q: Query) returns (res: Result<Answer>)
    requires Keyed(rows)
    ensures res == Err(InvalidCursor) <==> DecodeCursor(Normalised(q)).Err?
    ensures res.Ok? ==> Listed(rows, q, res.value)
    ensures res.Ok? ==>
              && |res.value.0| <= (if 1 <= q.limit <= 200 then q.limit else 50)
              && AllFitting(rows, q, res.value.0) && InAskedOrder(rows, q, res.value.0)
    ensures (forall id | id in rows :: Stored(rows[id])) && DecodeCursor(Normalised(q)).Ok? ==> res.Ok?
  {
    var f := Normalised(q);
    var decoded := DecodeCursor(f);
    if decoded.Err? {
      return Err(InvalidCursor);
    }
    var page := ReadPage(rows, Where(f), OrderBy(), Id, f.asc, f.limit, decoded.value);
    if page.Err? {
      return Err(page.error);
    }
    res := Ok((page.value.0, EncodeNext(page.value.1)));
    PageExactly(rows, q, res.value);
  }

  /** Under one order, over a fixed table, the walk returns every matching tenant once, in order. */
  lemma {:induction false} TenantWalk(rows: map<AggId, Row>, f: Filter)
    requires f.limit >= 1
    ensures Walk(Keys(rows, Where(f), OrderBy()), f.asc, f.limit, None) == Listing(f.asc, Keys(rows, Where(f), OrderBy()))
  {
    WholeWalk(Keys(rows, Where(f), OrderBy()), f.asc, f.limit);
  }

  lemma {:induction false} SortColumnsIdentify(f: Filter)
    ensures Identifies(Where(f), OrderBy())
  {
  }

  /**
   A client pages through the tenants while commands commit: tenants come in order, none twice,
   and one that matches at every read has been returned when the walk ends.
   */
  lemma {:induction false} WalkDuringCommands(dbs: seq<P.Db>, f: Filter, pages: seq<Page>)
    requires Timeline(dbs) && f.limit >= 1 && IsWalk(Tables(dbs, Where(f), OrderBy()), f.asc, f.limit, pages)
    ensures Ordered(f.asc, Returned(pages))
    ensures forall i, j | 0 <= i < j < |Returned(pages)| :: Returned(pages)[i].id != Returned(pages)[j].id
    ensures pages[|pages| - 1].next.None? ==>
              forall id | (forall i | 0 <= i < |dbs| :: id in dbs[i].rows && Matches(f, dbs[i].rows[id])) ::
                RowKey(dbs[0].rows[id]) in Returned(pages)
  {
    SortColumnsIdentify(f);
    WalkDuringRun(dbs, Where(f), OrderBy(), f.asc, f.limit, pages);
    if pages[|pages| - 1].next.None? {
      forall id | (forall i | 0 <= i < |dbs| :: id in dbs[i].rows && Matches(f, dbs[i].rows[id]))
        ensures RowKey(dbs[0].rows[id]) in Returned(pages)
      {
        assert forall i | 0 <= i < |dbs| :: id in dbs[i].rows && Where(f)(dbs[i].rows[id]);
        assert OrderBy()(dbs[0].rows[id]) in Returned(pages);
      }
    }
  }

  /**
   A cursor continues its listing under the order it was issued for. Under the other order it is
   accepted all the same, and following it returns exactly the tenants already returned before it,
   backwards, and none that lie ahead.
   */
  lemma {:induction false} CursorUnderEitherOrder(rows: map<AggId, Row>, f: Filter, g: Filter, i: nat)
    requires g.limit >= 1 && (g.status, g.plan) == (f.status, f.plan)
    requires var list := Listing(f.asc, Keys(rows, Where(f), OrderBy()));
             i < |list| && g.cursor == Some(EncodeCursor(list[i]))
    ensures var keys := Keys(rows, Where(f), OrderBy());
            var list := Listing(f.asc, keys);
            && DecodeCursor(g) == Ok(Some(list[i])) && Keys(rows, Where(g), OrderBy()) == keys
            && Walk(keys, g.asc, g.limit, Some(list[i])) == if g.asc == f.asc then list[i + 1..] else Reverse(list[..i])
  {
    SameKeys(rows, f, g);
    WalkFromKey(Keys(rows, Where(f), OrderBy()), f.asc, g.limit, g.asc, i);
  }

  /** The cursor and the order do not matter to which tenants are selected. */
  lemma {:induction false} SameKeys(rows: map<AggId, Row>, f: Filter, g: Filter)
    requires (g.status, g.plan) == (f.status, f.plan)
    ensures Keys(rows, Where(f), OrderBy()) == Keys(rows, Where(g), OrderBy())
  {
  }

  const Three := map[TenantId(1) := TenantRow(1, "a", "a", "free", "active", 0, 1, 1, 1),
                     TenantId(2) := TenantRow(2, "b", "b", "free", "active", 0, 1, 2, 2),
                     TenantId(3) := TenantRow(3, "c", "c", "free", "active", 0, 1, 3, 3)]

  function KeyAt(n: int): Key { Key([n], n) }

  /** Three tenants, newest first: with the second one's cursor and the other order, the third comes again and the first never. */
  lemma {:induction false} OtherOrderGoesBack()
    ensures var newest := Normalised(Query(None, None, Some(false), 2, None));
            var keys := Keys(Three, Where(newest), OrderBy());
            && Listing(false, keys) == [KeyAt(3), KeyAt(2), KeyAt(1)]
            && PageOf(keys, false, 2, None) == Page([KeyAt(3), KeyAt(2)], Some(KeyAt(2)))
            && Walk(keys, true, 2, Some(KeyAt(2))) == [KeyAt(3)]
  {
    var newest := Normalised(Query(None, None, Some(false), 2, None));
    var keys := Keys(Three, Where(newest), OrderBy());
    var list := [KeyAt(3), KeyAt(2), KeyAt(1)];
    ThreeKeys(newest);
    assert SeqLess([1], [2]) && SeqLess([2], [3]) && SeqLess([1], [3]);
    assert Elements(list) == {KeyAt(1), KeyAt(2), KeyAt(3)};
    ListingUnique(false, list);
    assert Beyond(keys, false, None) == keys;
    WalkFromKey(keys, false, 2, true, 1);
    assert Reverse(list[..1]) == [KeyAt(3)];
  }

  lemma {:induction false} ThreeKeys(f: Filter)
    requires f.status.None? && f.plan.None?
    ensures Keys(Three, Where(f), OrderBy()) == {KeyAt(1), KeyAt(2), KeyAt(3)}
  {
    var keys := Keys(Three, Where(f), OrderBy());
    forall n | n in {1, 2, 3} ensures KeyAt(n) in keys {
      assert TenantId(n) in Three && OrderBy()(Three[TenantId(n)]) == KeyAt(n);
    }
  }

  // --- Successive requests ---

  /** The page behind the answer to a query, when it comes with that cursor. */
  ghost function PageWith(rows: map<AggId, Row>, q: Query, cursor: Option<Cursor>): Page {
    var f := Normalised(q);
    PageOf(Keys(rows, Where(f), OrderBy()), f.asc, f.limit, KeyIn(cursor))
  }

  lemma {:induction false} CallShows(rows: map<AggId, Row>, q: Query, cursor: Option<Cursor>, a: Answer)
    requires Listed(rows, q.(cursor := cursor), a)
    ensures Shows(rows, a, PageWith(rows, q, cursor))
  {
    SameKeys(rows, Normalised(q), Normalised(q.(cursor := cursor)));
  }

  /** The cursor of the i-th request: none, then the one of the answer before. */
  function CursorAt(answers: seq<Answer>, i: nat): Option<Cursor>
    requires i < |answers|
  {
    if i == 0 then None else answers[i - 1].1
  }

  /** A client asks again while there is a cursor, each time of a later state. */
  ghost predicate Paged(dbs: seq<P.Db>, q: Query, answers: seq<Answer>) {
    && |answers| == |dbs| > 0
    && (forall i | 0 <= i < |dbs| :: Listed(dbs[i].rows, q.(cursor := CursorAt(answers, i)), answers[i]))
    && (forall i | 0 <= i < |dbs| - 1 :: answers[i].1.Some?)
  }

  /** Successive calls with the returned cursor are a walk, whose rows are the tenants returned. */
  lemma {:induction false} CallsAreWalk(dbs: seq<P.Db>, q: Query, answers: seq<Answer>) returns (pages: seq<Page>)
    requires Paged(dbs, q, answers)
    ensures var f := Normalised(q); IsWalk(Tables(dbs, Where(f), OrderBy()), f.asc, f.limit, pages)
    ensures forall i | 0 <= i < |dbs| :: Shows(dbs[i].rows, answers[i], pages[i])
  {
    pages := seq(|dbs|, i requires 0 <= i < |dbs| => PageWith(dbs[i].rows, q, CursorAt(answers, i)));
    forall i | 0 <= i < |dbs| ensures Shows(dbs[i].rows, answers[i], pages[i]) {
      CallShows(dbs[i].rows, q, CursorAt(answers, i), answers[i]);
    }
    PagesFollow(dbs, q, answers, pages);
  }

  lemma {:induction false} PagesFollow(dbs: seq<P.Db>, q: Query, answers: seq<Answer>, pages: seq<Page>)
    requires |answers| == |dbs| == |pages| > 0 && forall i | 0 <= i < |dbs| - 1 :: answers[i].1.Some?
    requires forall i | 0 <= i < |dbs| :: pages[i] == PageWith(dbs[i].rows, q, CursorAt(answers, i))
    requires forall i | 0 <= i < |dbs| :: Shows(dbs[i].rows, answers[i], pages[i])
    ensures var f := Normalised(q); IsWalk(Tables(dbs, Where(f), OrderBy()), f.asc, f.limit, pages)
  {
    var f := Normalised(q);
    forall i | 0 <= i < |pages| ensures KeyIn(CursorAt(answers, i)) == Asked(pages, i) {
      if i > 0 {
        assert Shows(dbs[i - 1].rows, answers[i - 1], pages[i - 1]);
      }
    }
    forall i | 0 <= i < |pages| - 1 ensures pages[i].next.Some? {
      assert Shows(dbs[i].rows, answers[i], pages[i]);
    }
    var tables := Tables(dbs, Where(f), OrderBy());
    assert forall i | 0 <= i < |pages| :: ReadOn(tables, f.asc, f.limit, pages, i);
    PagesAreWalk(tables, f.asc, f.limit, pages);
  }

  // --- What the client has at the end ---

  /** All tenants of the answers, in order. */
  function TenantsOf(answers: seq<Answer>): seq<Aggregate> {
    if answers == [] then [] else TenantsOf(answers[..|answers| - 1]) + answers[|answers| - 1].0
  }

  ghost predicate SameIds(keys: seq<Key>, tenants: seq<Aggregate>) {
    |keys| == |tenants| && forall i | 0 <= i < |keys| :: tenants[i].Ten? && tenants[i].tenant.id == keys[i].id
  }

  lemma {:induction false} ShownIds(rows: map<AggId, Row>, keys: seq<Key>, tenants: seq<Aggregate>)
    requires Keyed(rows) && Scanned(rows, Id, keys, tenants)
    ensures SameIds(keys, tenants)
  {
    forall i | 0 <= i < |keys| ensures tenants[i].Ten? && tenants[i].tenant.id == keys[i].id {
      ScanColumns(rows[Id(keys[i].id)]);
    }
  }

  lemma {:induction false} AllIds(pages: seq<Page>, answers: seq<Answer>)
    requires |pages| == |answers| && forall i | 0 <= i < |pages| :: SameIds(pages[i].keys, answers[i].0)
    ensures SameIds(Returned(pages), TenantsOf(answers))
  {
    if pages != [] {
      var n := |pages| - 1;
      AllIds(pages[..n], answers[..n]);
      assert SameIds(pages[n].keys, answers[n].0);
    }
  }

  lemma {:induction false} TimelineKeyed(dbs: seq<P.Db>, i: nat)
    requires Timeline(dbs) && i < |dbs|
    ensures Keyed(dbs[i].rows)
  {
    TimelineInv(dbs, i);
    forall id | id in dbs[i].rows ensures IdOf(dbs[i].rows[id]) == id {
      assert I.RowFine(id, dbs[i].rows[id]);
    }
  }

  /** The pages behind the answers to a client, and the tenants on them. */
  lemma {:induction false} ClientPages(dbs: seq<P.Db>, q: Query, answers: seq<Answer>) returns (pages: seq<Page>)
    requires Timeline(dbs) && Paged(dbs, q, answers)
    ensures var f := Normalised(q); IsWalk(Tables(dbs, Where(f), OrderBy()), f.asc, f.limit, pages)
    ensures SameIds(Returned(pages), TenantsOf(answers))
    ensures pages[|pages| - 1].next.None? <==> answers[|answers| - 1].1.None?
  {
    pages := CallsAreWalk(dbs, q, answers);
    forall i | 0 <= i < |pages| ensures SameIds(pages[i].keys, answers[i].0) {
      assert Shows(dbs[i].rows, answers[i], pages[i]);
      TimelineKeyed(dbs, i);
      ShownIds(dbs[i].rows, pages[i].keys, answers[i].0);
    }
    AllIds(pages, answers);
    assert Shows(dbs[|dbs| - 1].rows, answers[|answers| - 1], pages[|pages| - 1]);
  }

  /** There at every read, and each time meeting the query. */
  ghost predicate WantedThroughout(dbs: seq<P.Db>, q: Query, id: AggId) {
    forall i | 0 <= i < |dbs| :: id in dbs[i].rows && Wants(q, dbs[i].rows[id])
  }

  ghost predicate Got(answers: seq<Answer>, id: AggId) {
    exists a :: a in TenantsOf(answers) && a.Ten? && TenantId(a.tenant.id) == id
  }

  /**
   Whatever commands commit between the requests, a client that pages to the end gets only tenants
   that meet the query, none twice, and every tenant that meets it at each read.
   */
  lemma {:induction false} ClientWalk(dbs: seq<P.Db>, q: Query, answers: seq<Answer>)
    requires Timeline(dbs) && Paged(dbs, q, answers)
    ensures forall i | 0 <= i < |dbs| :: AllFitting(dbs[i].rows, q, answers[i].0)
    ensures forall a | a in TenantsOf(answers) :: a.Ten?
    ensures forall i, j | 0 <= i < j < |TenantsOf(answers)| ::
              TenantsOf(answers)[i].tenant.id != TenantsOf(answers)[j].tenant.id
    ensures answers[|answers| - 1].1.None? ==>
              forall id | WantedThroughout(dbs, q, id) ::
                Got(answers, id)
  {
    var pages := ClientPages(dbs, q, answers);
    var f := Normalised(q);
    WalkDuringCommands(dbs, f, pages);
    forall i | 0 <= i < |dbs| ensures AllFitting(dbs[i].rows, q, answers[i].0) {
      TimelineKeyed(dbs, i);
      PageExactly(dbs[i].rows, q.(cursor := CursorAt(answers, i)), answers[i]);
      FittingIgnoresCursor(dbs[i].rows, q, CursorAt(answers, i), answers[i].0);
    }
    if answers[|answers| - 1].1.None? {
      forall id | WantedThroughout(dbs, q, id)
        ensures Got(answers, id)
      {
        StayerIsReturned(dbs, q, answers, pages, id);
      }
    }
  }

  lemma {:induction false} FittingIgnoresCursor(rows: map<AggId, Row>, q: Query, cursor: Option<Cursor>, tenants: seq<Aggregate>)
    requires AllFitting(rows, q.(cursor := cursor), tenants)
    ensures AllFitting(rows, q, tenants)
  {
    forall i | 0 <= i < |tenants| ensures Fitting(rows, q, tenants[i]) {
      assert Fitting(rows, q.(cursor := cursor), tenants[i]);
    }
  }

  lemma {:induction false} StayerIsReturned(dbs: seq<P.Db>, q: Query, answers: seq<Answer>, pages: seq<Page>, id: AggId)
    requires Timeline(dbs) && SameIds(Returned(pages), TenantsOf(answers))
    requires var f := Normalised(q); IsWalk(Tables(dbs, Where(f), OrderBy()), f.asc, f.limit, pages) && pages[|pages| - 1].next.None?
    requires WantedThroughout(dbs, q, id)
    ensures Got(answers, id)
  {
    var f := Normalised(q);
    forall i | 0 <= i < |dbs| ensures id in dbs[i].rows && Matches(f, dbs[i].rows[id]) {
      MatchesExactly(q, dbs[i].rows[id]);
    }
    WalkDuringCommands(dbs, f, pages);
    TimelineKeyed(dbs, 0);
    var k := RowKey(dbs[0].rows[id]);
    assert k in Returned(pages);
    var m :| 0 <= m < |Returned(pages)| && Returned(pages)[m] == k;
    assert TenantsOf(answers)[m] in TenantsOf(answers);
  }
}
