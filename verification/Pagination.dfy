/** Keyset pagination: one page, the walk that follows next cursors, and walks under concurrent writes. */
module Pagination {
  import opened Wrappers
  import opened Ordering

  datatype Page = Page(keys: seq<Key>, next: Option<Key>)

  /** The keys beyond the cursor. */
  function Beyond(keys: set<Key>, asc: bool, cursor: Option<Key>): set<Key> {
    set k | k in keys && (cursor.None? || Precedes(asc, cursor.value, k))
  }

  /** ORDER BY ... LIMIT limit+1; the extra row only says that there is a next page. */
  function PageOf(keys: set<Key>, asc: bool, limit: nat, cursor: Option<Key>): Page
    requires limit >= 1
  {
    var list := Listing(asc, Beyond(keys, asc, cursor));
    if |list| > limit then Page(list[..limit], Some(list[limit - 1])) else Page(list, None)
  }

  /** What lies beyond a key beyond the cursor. */
  lemma {:induction false} BeyondFurther(keys: set<Key>, asc: bool, cursor: Option<Key>, c: Key)
    requires c in Beyond(keys, asc, cursor)
    ensures Beyond(keys, asc, Some(c)) == set k | k in Beyond(keys, asc, cursor) && Precedes(asc, c, k)
    ensures |Beyond(keys, asc, Some(c))| < |Beyond(keys, asc, cursor)|
  {
    var rest, further := Beyond(keys, asc, cursor), Beyond(keys, asc, Some(c));
    forall k | k in further ensures k in rest - {c} {
      Total(asc, c, c);
      if cursor.Some? {
        Transitive(asc, cursor.value, c, k);
      }
    }
    SubsetSmaller(further, rest, c);
  }

  lemma {:induction false} SubsetSmaller(a: set<Key>, b: set<Key>, c: Key)
    requires a <= b - {c} && c in b
    ensures |a| < |b|
    decreases |a|
  {
    if a != {} {
      var x :| x in a;
      SubsetSmaller(a - {x}, b - {x}, c);
    }
  }

  /** A full page moves the cursor strictly forward. */
  lemma {:induction false} PageAdvances(keys: set<Key>, asc: bool, limit: nat, cursor: Option<Key>)
    requires limit >= 1 && PageOf(keys, asc, limit, cursor).next.Some?
    ensures var p := PageOf(keys, asc, limit, cursor);
            && Listing(asc, Beyond(keys, asc, cursor)) == p.keys + Listing(asc, Beyond(keys, asc, p.next))
            && |Beyond(keys, asc, p.next)| < |Beyond(keys, asc, cursor)|
  {
    var rest := Beyond(keys, asc, cursor);
    var list := Listing(asc, rest);
    ListingFacts(asc, rest);
    assert list[limit - 1] in Elements(list);
    ListingContinues(asc, rest, list, limit);
    BeyondFurther(keys, asc, cursor, list[limit - 1]);
    assert list == list[..limit] + list[limit..];
  }

  /** Everything a client gets by following next cursors over a table that stays put. */
  function Walk(keys: set<Key>, asc: bool, limit: nat, cursor: Option<Key>): seq<Key>
    requires limit >= 1
    decreases |Beyond(keys, asc, cursor)|
  {
    var p := PageOf(keys, asc, limit, cursor);
    if p.next.None? then p.keys
    else PageAdvances(keys, asc, limit, cursor); p.keys + Walk(keys, asc, limit, p.next)
  }

  /** The walk ends, and returns every matching row exactly once, in order. */
  lemma {:induction false} WalkIsListing(keys: set<Key>, asc: bool, limit: nat, cursor: Option<Key>)
    requires limit >= 1
    ensures Walk(keys, asc, limit, cursor) == Listing(asc, Beyond(keys, asc, cursor))
    decreases |Beyond(keys, asc, cursor)|
  {
    var p := PageOf(keys, asc, limit, cursor);
    if p.next.Some? {
      PageAdvances(keys, asc, limit, cursor);
      WalkIsListing(keys, asc, limit, p.next);
    }
  }

  lemma {:induction false} WholeWalk(keys: set<Key>, asc: bool, limit: nat)
    requires limit >= 1
    ensures Walk(keys, asc, limit, None) == Listing(asc, keys)
    ensures Ordered(asc, Walk(keys, asc, limit, None)) && Elements(Walk(keys, asc, limit, None)) == keys
  {
    WalkIsListing(keys, asc, limit, None);
    assert Beyond(keys, asc, None) == keys;
    ListingFacts(asc, keys);
  }

  /** From a key of the listing on, under its own order and under the other one. */
  lemma {:induction false} WalkFromKey(keys: set<Key>, asc: bool, limit: nat, other: bool, i: nat)
    requires limit >= 1 && i < |Listing(asc, keys)|
    ensures var list := Listing(asc, keys);
            Walk(keys, other, limit, Some(list[i])) == if other == asc then list[i + 1..] else Reverse(list[..i])
  {
    var list := Listing(asc, keys);
    WalkIsListing(keys, other, limit, Some(list[i]));
    assert Beyond(keys, other, Some(list[i])) == set k | k in keys && Precedes(other, list[i], k);
    if other == asc {
      ListingContinues(asc, keys, list, i + 1);
    } else {
      ListingBackwards(asc, keys, list, i);
    }
  }

  // --- Walks while the table changes ---

  /** Each page is read from its own table, from where the page before left off. */
  ghost predicate IsWalk(tables: seq<set<Key>>, asc: bool, limit: nat, pages: seq<Page>)
    requires limit >= 1
    decreases |pages|
  {
    && |pages| == |tables| > 0
    && var n := |pages| - 1;
       && pages[n] == PageOf(tables[n], asc, limit, CursorBefore(pages))
       && (n > 0 ==> pages[n - 1].next.Some? && IsWalk(tables[..n], asc, limit, pages[..n]))
  }

  /** The cursor the last page was asked with. */
  function CursorBefore(pages: seq<Page>): Option<Key>
    requires pages != []
  {
    if |pages| == 1 then None else pages[|pages| - 2].next
  }

  /** The cursor the i-th page is asked with. */
  function Asked(pages: seq<Page>, i: nat): Option<Key>
    requires i < |pages|
  {
    if i == 0 then None else pages[i - 1].next
  }

  /** The i-th page is what its table shows beyond the cursor of the page before. */
  ghost predicate ReadOn(tables: seq<set<Key>>, asc: bool, limit: nat, pages: seq<Page>, i: nat)
    requires limit >= 1 && |pages| == |tables| && i < |pages|
  {
    pages[i] == PageOf(tables[i], asc, limit, Asked(pages, i))
  }

  lemma {:induction false} ReadOnBefore(tables: seq<set<Key>>, asc: bool, limit: nat, pages: seq<Page>, n: nat, i: nat)
    requires limit >= 1 && |pages| == |tables| && i < n <= |pages| && ReadOn(tables, asc, limit, pages, i)
    ensures ReadOn(tables[..n], asc, limit, pages[..n], i)
  {
    assert Asked(pages[..n], i) == Asked(pages, i);
  }

  lemma {:induction false} PagesAreWalk(tables: seq<set<Key>>, asc: bool, limit: nat, pages: seq<Page>)
    requires limit >= 1 && |pages| == |tables| > 0
    requires forall i | 0 <= i < |pages| :: ReadOn(tables, asc, limit, pages, i)
    requires forall i | 0 <= i < |pages| - 1 :: pages[i].next.Some?
    ensures IsWalk(tables, asc, limit, pages)
    decreases |pages|
  {
    var n := |pages| - 1;
    assert ReadOn(tables, asc, limit, pages, n);
    if n > 0 {
      forall i | 0 <= i < n ensures ReadOn(tables[..n], asc, limit, pages[..n], i) {
        ReadOnBefore(tables, asc, limit, pages, n, i);
      }
      PagesAreWalk(tables[..n], asc, limit, pages[..n]);
    }
  }

  function Returned(pages: seq<Page>): seq<Key> {
    if pages == [] then [] else Returned(pages[..|pages| - 1]) + pages[|pages| - 1].keys
  }

  /** What a page says: in order, all beyond the cursor, and nothing beyond it skipped. */
  ghost predicate PageLike(keys: set<Key>, asc: bool, cursor: Option<Key>, p: Page) {
    && Ordered(asc, p.keys)
    && (forall k | k in p.keys :: k in keys && (cursor.Some? ==> Precedes(asc, cursor.value, k)))
    && (p.next.Some? ==> p.keys != [] && p.next.value == p.keys[|p.keys| - 1])
    && (forall k | k in Beyond(keys, asc, cursor) :: k in p.keys || (p.next.Some? && Precedes(asc, p.next.value, k)))
  }

  lemma {:induction false} PageFacts(keys: set<Key>, asc: bool, limit: nat, cursor: Option<Key>)
    requires limit >= 1
    ensures PageLike(keys, asc, cursor, PageOf(keys, asc, limit, cursor))
  {
    var rest := Beyond(keys, asc, cursor);
    var list := Listing(asc, rest);
    ListingFacts(asc, rest);
    var p := PageOf(keys, asc, limit, cursor);
    forall k | k in p.keys ensures k in rest {
      assert k in Elements(list);
    }
    forall k | k in rest ensures k in p.keys || (p.next.Some? && Precedes(asc, p.next.value, k)) {
      assert k in Elements(list);
      var j :| 0 <= j < |list| && list[j] == k;
      if p.next.Some? && j < limit {
        assert p.keys[j] == k;
      }
    }
  }

  /** Keys returned so far do not pass the cursor. */
  ghost predicate UpTo(asc: bool, s: seq<Key>, c: Option<Key>) {
    Ordered(asc, s) && (c.Some? ==> forall k | k in s :: k == c.value || Precedes(asc, k, c.value))
  }

  lemma {:induction false} AppendPage(keys: set<Key>, asc: bool, s: seq<Key>, c: Option<Key>, p: Page)
    requires UpTo(asc, s, c) && (c.None? ==> s == []) && PageLike(keys, asc, c, p)
    ensures UpTo(asc, s + p.keys, p.next)
  {
    if c.Some? {
      AppendOrdered(asc, s, c.value, p.keys);
    } else {
      assert s + p.keys == p.keys;
    }
    if p.next.Some? {
      LastIsGreatest(asc, s + p.keys, p.next.value);
    }
  }

  /** Whatever is inserted or updated between the pages, the keys come in strict order. */
  lemma {:induction false} WalkOrdered(tables: seq<set<Key>>, asc: bool, limit: nat, pages: seq<Page>)
    requires limit >= 1 && IsWalk(tables, asc, limit, pages)
    ensures UpTo(asc, Returned(pages), pages[|pages| - 1].next)
  {
    var n := |pages| - 1;
    PageFacts(tables[n], asc, limit, CursorBefore(pages));
    if n > 0 {
      WalkOrdered(tables[..n], asc, limit, pages[..n]);
    } else {
      assert Returned(pages[..0]) == [];
    }
    AppendPage(tables[n], asc, Returned(pages[..n]), CursorBefore(pages), pages[n]);
  }

  lemma {:induction false} AppendOrdered(asc: bool, s: seq<Key>, c: Key, t: seq<Key>)
    requires Ordered(asc, s) && Ordered(asc, t)
    requires forall k | k in s :: k == c || Precedes(asc, k, c)
    requires forall k | k in t :: Precedes(asc, c, k)
    ensures Ordered(asc, s + t)
  {
    var u := s + t;
    forall i, j | 0 <= i < j < |u| ensures Precedes(asc, u[i], u[j]) {
      if i < |s| <= j {
        assert u[i] in s && u[j] in t;
        if u[i] != c {
          Transitive(asc, u[i], c, u[j]);
        }
      } else if i >= |s| {
        assert u[i] == t[i - |s|] && u[j] == t[j - |s|];
      }
    }
  }

  lemma {:induction false} LastIsGreatest(asc: bool, s: seq<Key>, last: Key)
    requires Ordered(asc, s) && s != [] && s[|s| - 1] == last
    ensures forall k | k in s :: k == last || Precedes(asc, k, last)
  {
  }

  /** Each row has one key for good: no update touches created_at, name or id. */
  ghost predicate KeysStable(tables: seq<set<Key>>) {
    forall i, j, k, l | 0 <= i < |tables| && 0 <= j < |tables| && k in tables[i] && l in tables[j] && k.id == l.id :: k == l
  }

  lemma {:induction false} ReturnedFromTables(tables: seq<set<Key>>, asc: bool, limit: nat, pages: seq<Page>, k: Key)
    requires limit >= 1 && IsWalk(tables, asc, limit, pages) && k in Returned(pages)
    ensures exists i :: 0 <= i < |tables| && k in tables[i]
  {
    var n := |pages| - 1;
    PageFacts(tables[n], asc, limit, CursorBefore(pages));
    assert Returned([]) == [] && pages[..0] == [];
    if n > 0 && k !in pages[n].keys {
      ReturnedFromTables(tables[..n], asc, limit, pages[..n], k);
      var i :| 0 <= i < n && k in tables[..n][i];
      assert k in tables[i];
    }
  }

  /** No row is returned twice. */
  lemma {:induction false} NoRowTwice(tables: seq<set<Key>>, asc: bool, limit: nat, pages: seq<Page>, i: nat, j: nat)
    requires limit >= 1 && IsWalk(tables, asc, limit, pages) && KeysStable(tables)
    requires i < j < |Returned(pages)|
    ensures Returned(pages)[i].id != Returned(pages)[j].id
  {
    var all := Returned(pages);
    WalkOrdered(tables, asc, limit, pages);
    ReturnedFromTables(tables, asc, limit, pages, all[i]);
    ReturnedFromTables(tables, asc, limit, pages, all[j]);
    Total(asc, all[i], all[j]);
    assert Precedes(asc, all[i], all[j]);
  }

  /** A row that is there on every read is returned by the end of the walk, or lies ahead of it. */
  lemma {:induction false} StayersReturned(tables: seq<set<Key>>, asc: bool, limit: nat, pages: seq<Page>, k: Key)
    requires limit >= 1 && IsWalk(tables, asc, limit, pages) && forall i | 0 <= i < |tables| :: k in tables[i]
    ensures var next := pages[|pages| - 1].next;
            k in Returned(pages) || (next.Some? && Precedes(asc, next.value, k))
  {
    var n := |pages| - 1;
    PageFacts(tables[n], asc, limit, CursorBefore(pages));
    if n > 0 {
      StayersReturned(tables[..n], asc, limit, pages[..n], k);
    }
    assert k in Returned(pages[..n]) || k in Beyond(tables[n], asc, CursorBefore(pages));
  }
}
