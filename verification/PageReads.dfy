/** One page of a table: select beyond the cursor, scan each row, cut, and name the last key. */
module PageReads {
  import opened Wrappers
  import opened Events
  import opened Aggregates
  import opened Ordering
  import opened Pagination

  /** The sort keys of the rows a query selects. */
  function Keys(rows: map<AggId, Row>, matches: Row -> bool, key: Row -> Key): set<Key> {
    set id | id in rows && matches(rows[id]) :: key(rows[id])
  }

  /** The id in a key leads back to the row. */
  predicate Indexed(rows: map<AggId, Row>, matches: Row -> bool, key: Row -> Key, idOf: int -> AggId) {
    forall id | id in rows && matches(rows[id]) :: idOf(key(rows[id]).id) == id
  }

  lemma {:induction false} KeyOfRow(rows: map<AggId, Row>, matches: Row -> bool, key: Row -> Key, idOf: int -> AggId, k: Key)
    requires Indexed(rows, matches, key, idOf)
    ensures k in Keys(rows, matches, key)
       <==> idOf(k.id) in rows && matches(rows[idOf(k.id)]) && k == key(rows[idOf(k.id)])
  {
  }

  predicate Scanned(rows: map<AggId, Row>, idOf: int -> AggId, keys: seq<Key>, aggregates: seq<Aggregate>) {
    && |aggregates| == |keys|
    && forall i | 0 <= i < |keys| :: idOf(keys[i].id) in rows && Scan(rows[idOf(keys[i].id)]) == Ok(aggregates[i])
  }

  /** The rows behind the keys, each rehydrated; the first that does not scan ends the call. */
  method ScanAll(rows: map<AggId, Row>, idOf: int -> AggId, keys: seq<Key>) returns (res: Result<seq<Aggregate>>)
    requires forall k | k in keys :: idOf(k.id) in rows
    ensures res.Ok? <==> forall k | k in keys :: Scan(rows[idOf(k.id)]).Ok?
    ensures res.Ok? ==> Scanned(rows, idOf, keys, res.value)
    ensures res.Err? ==> res.error == DataCorruption
  {
    var aggregates: seq<Aggregate> := [];
    for i := 0 to |keys|
      invariant Scanned(rows, idOf, keys[..i], aggregates)
    {
      assert keys[i] in keys && keys[..i + 1] == keys[..i] + [keys[i]];
      var scanned := Scan(rows[idOf(keys[i].id)]);
      if scanned.Err? {
        return Err(DataCorruption);
      }
      aggregates := aggregates + [scanned.value];
    }
    assert keys[..|keys|] == keys;
    res := Ok(aggregates);
  }

  lemma {:induction false} ListedRows(rows: map<AggId, Row>, matches: Row -> bool, key: Row -> Key, idOf: int -> AggId, asc: bool, cursor: Option<Key>)
    requires Indexed(rows, matches, key, idOf)
    ensures forall k | k in Listing(asc, Beyond(Keys(rows, matches, key), asc, cursor)) :: idOf(k.id) in rows
  {
    var beyond := Beyond(Keys(rows, matches, key), asc, cursor);
    ListingFacts(asc, beyond);
    forall k | k in Listing(asc, beyond) ensures idOf(k.id) in rows {
      assert k in Elements(Listing(asc, beyond));
      KeyOfRow(rows, matches, key, idOf, k);
    }
  }

  /** One row more than the limit is fetched, to know whether there is a next page. */
  method ReadPage(rows: map<AggId, Row>, matches: Row -> bool, key: Row -> Key, idOf: int -> AggId,
                  asc: bool, limit: nat, cursor: Option<Key>)
    returns (res: Result<(seq<Aggregate>, Option<Key>)>)
    requires Indexed(rows, matches, key, idOf) && limit >= 1
    ensures res.Ok? ==>
              var page := PageOf(Keys(rows, matches, key), asc, limit, cursor);
              Scanned(rows, idOf, page.keys, res.value.0) && res.value.1 == page.next
    ensures res.Err? ==> res.error == DataCorruption
    ensures (forall id | id in rows :: Stored(rows[id])) ==> res.Ok?
  {
    var listing := Listing(asc, Beyond(Keys(rows, matches, key), asc, cursor));
    var fetched := if |listing| > limit then listing[..limit + 1] else listing;
    ListedRows(rows, matches, key, idOf, asc, cursor);
    assert forall k | k in fetched :: k in listing;
    var scanned := ScanAll(rows, idOf, fetched);
    if scanned.Err? {
      return Err(scanned.error);
    }
    var aggregates, next := scanned.value, None;
    if |aggregates| > limit {
      next := Some(fetched[limit - 1]);
      aggregates := aggregates[..limit];
      assert listing[..limit] == fetched[..limit];
    }
    res := Ok((aggregates, next));
  }

  /** The i-th key of a page and the row behind it. */
  lemma {:induction false} PageRow(rows: map<AggId, Row>, matches: Row -> bool, key: Row -> Key, idOf: int -> AggId,
                                   asc: bool, limit: nat, cursor: Option<Key>, i: nat)
    requires Indexed(rows, matches, key, idOf) && limit >= 1 && i < |PageOf(Keys(rows, matches, key), asc, limit, cursor).keys|
    ensures var k := PageOf(Keys(rows, matches, key), asc, limit, cursor).keys[i];
            && idOf(k.id) in rows && matches(rows[idOf(k.id)]) && k == key(rows[idOf(k.id)])
            && (cursor.Some? ==> Precedes(asc, cursor.value, k))
  {
    var page := PageOf(Keys(rows, matches, key), asc, limit, cursor);
    PageFacts(Keys(rows, matches, key), asc, limit, cursor);
    assert page.keys[i] in page.keys;
    KeyOfRow(rows, matches, key, idOf, page.keys[i]);
  }

  /** A selected row beyond the cursor is on the page, or there is a next one. */
  lemma {:induction false} RowOnPage(rows: map<AggId, Row>, matches: Row -> bool, key: Row -> Key,
                                     asc: bool, limit: nat, cursor: Option<Key>, id: AggId)
    requires limit >= 1 && id in rows && matches(rows[id]) && (cursor.Some? ==> Precedes(asc, cursor.value, key(rows[id])))
    ensures var page := PageOf(Keys(rows, matches, key), asc, limit, cursor);
            key(rows[id]) in page.keys || (page.next.Some? && Precedes(asc, page.next.value, key(rows[id])))
  {
    PageFacts(Keys(rows, matches, key), asc, limit, cursor);
    assert key(rows[id]) in Beyond(Keys(rows, matches, key), asc, cursor);
  }
}
