/**
 Page walks while commands commit. The pages of a walk are read from successive states of the
 database, between which anything may have happened; sort columns are identity columns, and those
 no command changes.
 */
module Timelines {
  import opened Events
  import opened Aggregates
  import opened Ordering
  import opened Pagination
  import opened PageReads
  import P = CommandProtocol
  import I = CommandIdentity

  /** Successive states of a database, from any run at all. */
  ghost predicate Timeline(dbs: seq<P.Db>) {
    && dbs != [] && I.Reached(dbs[0])
    && forall i | 0 <= i < |dbs| - 1 :: Follows(dbs, i)
  }

  ghost predicate Follows(dbs: seq<P.Db>, i: nat)
    requires i + 1 < |dbs|
  {
    I.Later(dbs[i], dbs[i + 1])
  }

  /** A key is made of identity columns, and its id tells the selected rows apart. */
  ghost predicate Identifies(matches: Row -> bool, key: Row -> Key) {
    && (forall r, r' | I.SameIdentity(r, r') && matches(r) :: key(r) == key(r'))
    && (forall r, r' | matches(r) && matches(r') && key(r).id == key(r').id :: IdOf(r) == IdOf(r'))
  }

  ghost function Tables(dbs: seq<P.Db>, matches: Row -> bool, key: Row -> Key): seq<set<Key>> {
    seq(|dbs|, i requires 0 <= i < |dbs| => Keys(dbs[i].rows, matches, key))
  }

  lemma {:induction false} TimelineInv(dbs: seq<P.Db>, j: nat)
    requires Timeline(dbs) && j < |dbs|
    ensures I.Inv(dbs[j])
    decreases j
  {
    if j == 0 {
      I.ReachedInv(dbs[0]);
    } else {
      TimelineInv(dbs, j - 1);
      assert Follows(dbs, j - 1);
      I.LaterInv(dbs[j - 1], dbs[j]);
    }
  }

  lemma {:induction false} StaysOnce(dbs: seq<P.Db>, j: nat, id: AggId)
    requires Timeline(dbs) && j + 1 < |dbs| && id in dbs[j].rows
    ensures id in dbs[j + 1].rows && I.SameIdentity(dbs[j].rows[id], dbs[j + 1].rows[id])
  {
    TimelineInv(dbs, j);
    assert Follows(dbs, j);
    I.IdentityOutlasts(dbs[j], dbs[j + 1], id);
  }

  lemma {:induction false} IdentityStays(dbs: seq<P.Db>, i: nat, j: nat, id: AggId)
    requires Timeline(dbs) && i <= j < |dbs| && id in dbs[i].rows
    ensures id in dbs[j].rows && I.SameIdentity(dbs[i].rows[id], dbs[j].rows[id])
    decreases j
  {
    if i < j {
      IdentityStays(dbs, i, j - 1, id);
      StaysOnce(dbs, j - 1, id);
    }
  }

  /** Where a key comes from. */
  lemma {:induction false} KeyRow(dbs: seq<P.Db>, matches: Row -> bool, key: Row -> Key, i: nat, k: Key) returns (id: AggId)
    requires Timeline(dbs) && i < |dbs| && k in Keys(dbs[i].rows, matches, key)
    ensures id in dbs[i].rows && matches(dbs[i].rows[id]) && key(dbs[i].rows[id]) == k && IdOf(dbs[i].rows[id]) == id
  {
    id :| id in dbs[i].rows && matches(dbs[i].rows[id]) && key(dbs[i].rows[id]) == k;
    TimelineInv(dbs, i);
    assert I.RowFine(id, dbs[i].rows[id]);
  }

  lemma {:induction false} SameRowSameKey(dbs: seq<P.Db>, matches: Row -> bool, key: Row -> Key, i: nat, j: nat, k: Key, l: Key)
    requires Timeline(dbs) && Identifies(matches, key) && i <= j < |dbs| && k.id == l.id
    requires k in Keys(dbs[i].rows, matches, key) && l in Keys(dbs[j].rows, matches, key)
    ensures k == l
  {
    var id := KeyRow(dbs, matches, key, i, k);
    var id' := KeyRow(dbs, matches, key, j, l);
    assert IdOf(dbs[i].rows[id]) == IdOf(dbs[j].rows[id']);
    IdentityStays(dbs, i, j, id);
  }

  lemma {:induction false} KeysStableOver(dbs: seq<P.Db>, matches: Row -> bool, key: Row -> Key)
    requires Timeline(dbs) && Identifies(matches, key)
    ensures KeysStable(Tables(dbs, matches, key))
  {
    var tables := Tables(dbs, matches, key);
    forall i: nat, j: nat, k: Key, l: Key
      | i < |dbs| && j < |dbs| && k in tables[i] && l in tables[j] && k.id == l.id
      ensures k == l
    {
      if i <= j {
        SameRowSameKey(dbs, matches, key, i, j, k, l);
      } else {
        SameRowSameKey(dbs, matches, key, j, i, l, k);
      }
    }
  }

  lemma {:induction false} StayerReturned(dbs: seq<P.Db>, matches: Row -> bool, key: Row -> Key, asc: bool, limit: nat, pages: seq<Page>, id: AggId)
    requires Timeline(dbs) && Identifies(matches, key) && limit >= 1
    requires IsWalk(Tables(dbs, matches, key), asc, limit, pages) && pages[|pages| - 1].next.None?
    requires forall i | 0 <= i < |dbs| :: id in dbs[i].rows && matches(dbs[i].rows[id])
    ensures key(dbs[0].rows[id]) in Returned(pages)
  {
    var tables := Tables(dbs, matches, key);
    var k := key(dbs[0].rows[id]);
    forall i | 0 <= i < |tables| ensures k in tables[i] {
      assert id in dbs[0].rows && matches(dbs[0].rows[id]);
      IdentityStays(dbs, 0, i, id);
      assert id in dbs[i].rows && matches(dbs[i].rows[id]);
      assert key(dbs[i].rows[id]) == k;
    }
    StayersReturned(tables, asc, limit, pages, k);
  }

  /**
   A client pages through a table while commands commit: rows come in order, none twice, and one
   that matches at every read has been returned when the walk ends.
   */
  lemma {:induction false} WalkDuringRun(dbs: seq<P.Db>, matches: Row -> bool, key: Row -> Key, asc: bool, limit: nat, pages: seq<Page>)
    requires Timeline(dbs) && Identifies(matches, key) && limit >= 1 && IsWalk(Tables(dbs, matches, key), asc, limit, pages)
    ensures Ordered(asc, Returned(pages))
    ensures forall i, j | 0 <= i < j < |Returned(pages)| :: Returned(pages)[i].id != Returned(pages)[j].id
    ensures pages[|pages| - 1].next.None? ==>
              forall id | (forall i | 0 <= i < |dbs| :: id in dbs[i].rows && matches(dbs[i].rows[id])) ::
                key(dbs[0].rows[id]) in Returned(pages)
  {
    var tables := Tables(dbs, matches, key);
    KeysStableOver(dbs, matches, key);
    WalkOrdered(tables, asc, limit, pages);
    forall i, j | 0 <= i < j < |Returned(pages)| ensures Returned(pages)[i].id != Returned(pages)[j].id {
      NoRowTwice(tables, asc, limit, pages, i, j);
    }
    if pages[|pages| - 1].next.None? {
      forall id | (forall i | 0 <= i < |dbs| :: id in dbs[i].rows && matches(dbs[i].rows[id]))
        ensures key(dbs[0].rows[id]) in Returned(pages)
      {
        StayerReturned(dbs, matches, key, asc, limit, pages, id);
      }
    }
  }
}
