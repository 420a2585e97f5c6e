/** ORDER BY a column, then id: keys, their total order in either direction, and sorted listings. */
module Ordering {

  /** A sort value, compared element by element, with the row id as tie-breaker. */
  datatype Key = Key(value: seq<int>, id: int)

  predicate SeqLess(a: seq<int>, b: seq<int>) {
    b != [] && (a == [] || a[0] < b[0] || (a[0] == b[0] && SeqLess(a[1..], b[1..])))
  }

  predicate Less(a: Key, b: Key) { SeqLess(a.value, b.value) || (a.value == b.value && a.id < b.id) }

  /** a comes before b in the listing. */
  predicate Precedes(asc: bool, a: Key, b: Key) { if asc then Less(a, b) else Less(b, a) }

  /** One sequence is less than another where they first differ, or if it ends there. */
  lemma {:induction false} SeqLessExactly(a: seq<int>, b: seq<int>)
    ensures SeqLess(a, b) <==> exists k :: 0 <= k < |b| && k <= |a| && a[..k] == b[..k] && (k == |a| || a[k] < b[k])
  {
    if b != [] && a != [] && a[0] == b[0] {
      SeqLessExactly(a[1..], b[1..]);
      assert a == [a[0]] + a[1..] && b == [b[0]] + b[1..];
      if SeqLess(a, b) {
        var k :| 0 <= k < |b[1..]| && k <= |a[1..]| && a[1..][..k] == b[1..][..k] && (k == |a[1..]| || a[1..][k] < b[1..][k]);
        assert a[..k + 1] == [a[0]] + a[1..][..k] && b[..k + 1] == [b[0]] + b[1..][..k];
      }
      if k :| 0 <= k < |b| && k <= |a| && a[..k] == b[..k] && (k == |a| || a[k] < b[k]) {
        assert a[1..][..k - 1] == a[..k][1..] && b[1..][..k - 1] == b[..k][1..];
      }
    } else if SeqLess(a, b) {
      assert a[..0] == b[..0];
    }
  }

  /** Keys of one number: by that number, then by id. */
  lemma {:induction false} NumberKeys(a: Key, b: Key)
    requires |a.value| == |b.value| == 1
    ensures Less(a, b) <==> a.value[0] < b.value[0] || (a.value[0] == b.value[0] && a.id < b.id)
  {
    assert !SeqLess(a.value[1..], b.value[1..]);
    assert SeqLess(a.value, b.value) <==> a.value[0] < b.value[0];
    assert a.value == b.value <==> a.value[0] == b.value[0];
  }

  lemma {:induction false} SeqLessTotal(a: seq<int>, b: seq<int>)
    ensures SeqLess(a, b) || SeqLess(b, a) || a == b
    ensures !(SeqLess(a, b) && SeqLess(b, a)) && !SeqLess(a, a)
  {
    if a != [] {
      SeqLessTotal(a[1..], a[1..]);
      if b != [] && a[0] == b[0] {
        SeqLessTotal(a[1..], b[1..]);
        assert a == [a[0]] + a[1..] && b == [b[0]] + b[1..];
      }
    }
  }

  lemma {:induction false} SeqLessTransitive(a: seq<int>, b: seq<int>, c: seq<int>)
    requires SeqLess(a, b) && SeqLess(b, c)
    ensures SeqLess(a, c)
  {
    if a != [] && a[0] == b[0] == c[0] {
      SeqLessTransitive(a[1..], b[1..], c[1..]);
    }
  }

  lemma {:induction false} Total(asc: bool, a: Key, b: Key)
    ensures Precedes(asc, a, b) || Precedes(asc, b, a) || a == b
    ensures !(Precedes(asc, a, b) && Precedes(asc, b, a)) && !Precedes(asc, a, a)
  {
    SeqLessTotal(a.value, b.value);
    SeqLessTotal(a.value, a.value);
  }

  lemma {:induction false} Transitive(asc: bool, a: Key, b: Key, c: Key)
    requires Precedes(asc, a, b) && Precedes(asc, b, c)
    ensures Precedes(asc, a, c)
  {
    var (x, y, z) := if asc then (a, b, c) else (c, b, a);
    if SeqLess(x.value, y.value) && SeqLess(y.value, z.value) {
      SeqLessTransitive(x.value, y.value, z.value);
    }
  }

  predicate Ordered(asc: bool, s: seq<Key>) {
    forall i, j | 0 <= i < j < |s| :: Precedes(asc, s[i], s[j])
  }

  function Elements(s: seq<Key>): set<Key> { set k | k in s }

  predicate IsFirst(asc: bool, keys: set<Key>, m: Key) {
    m in keys && forall k | k in keys :: k == m || Precedes(asc, m, k)
  }

  lemma {:induction false} FirstExists(asc: bool, keys: set<Key>) returns (m: Key)
    requires keys != {}
    ensures IsFirst(asc, keys, m)
    decreases |keys|
  {
    m :| m in keys;
    var rest := keys - {m};
    if rest != {} {
      var n := FirstExists(asc, rest);
      Total(asc, m, n);
      if Precedes(asc, n, m) {
        m := n;
      } else {
        forall k | k in keys ensures k == m || Precedes(asc, m, k) {
          if k != m && k != n {
            Transitive(asc, m, n, k);
          }
        }
      }
    }
  }

  function FirstOf(asc: bool, keys: set<Key>): (m: Key)
    requires keys != {}
    ensures IsFirst(asc, keys, m)
  {
    assert exists k :: IsFirst(asc, keys, k) by { var m := FirstExists(asc, keys); }
    assert forall x, y | IsFirst(asc, keys, x) && IsFirst(asc, keys, y) :: x == y by {
      forall x, y | IsFirst(asc, keys, x) && IsFirst(asc, keys, y) ensures x == y {
        Total(asc, x, y);
      }
    }
    var m :| m in keys && IsFirst(asc, keys, m); m
  }

  lemma {:induction false} OrderedCons(asc: bool, m: Key, rest: seq<Key>)
    requires Ordered(asc, rest) && forall k | k in rest :: Precedes(asc, m, k)
    ensures Ordered(asc, [m] + rest) && Elements([m] + rest) == {m} + Elements(rest)
  {
    var s := [m] + rest;
    forall i, j | 0 <= i < j < |s| ensures Precedes(asc, s[i], s[j]) {
      if i == 0 {
        assert s[j] in rest;
      } else {
        assert s[i] == rest[i - 1] && s[j] == rest[j - 1];
      }
    }
  }

  /** The keys in listing order. */
  function Listing(asc: bool, keys: set<Key>): seq<Key>
    decreases |keys|
  {
    if keys == {} then [] else var m := FirstOf(asc, keys); [m] + Listing(asc, keys - {m})
  }

  lemma {:induction false} ListingFacts(asc: bool, keys: set<Key>)
    ensures var s := Listing(asc, keys); Elements(s) == keys && |s| == |keys| && Ordered(asc, s)
    decreases |keys|
  {
    if keys != {} {
      var m := FirstOf(asc, keys);
      ListingFacts(asc, keys - {m});
      var rest := Listing(asc, keys - {m});
      assert forall k | k in rest :: k in Elements(rest);
      OrderedCons(asc, m, rest);
      assert keys == {m} + (keys - {m});
    }
  }

  lemma {:induction false} HeadIsFirst(asc: bool, s: seq<Key>)
    requires s != [] && Ordered(asc, s)
    ensures IsFirst(asc, Elements(s), s[0]) && Elements(s[1..]) == Elements(s) - {s[0]}
  {
    assert s[0] in Elements(s);
    forall k | k in s[1..] ensures k != s[0] {
      Total(asc, k, k);
    }
  }

  /** A set of keys has one ordering. */
  lemma {:induction false} OrderedUnique(asc: bool, s: seq<Key>, t: seq<Key>)
    requires Ordered(asc, s) && Ordered(asc, t) && Elements(s) == Elements(t)
    ensures s == t
  {
    if s == [] {
      assert forall i | 0 <= i < |t| :: t[i] in Elements(t);
    } else {
      assert s[0] in Elements(t);
      HeadIsFirst(asc, s);
      HeadIsFirst(asc, t);
      Total(asc, s[0], t[0]);
      OrderedUnique(asc, s[1..], t[1..]);
      assert s == [s[0]] + s[1..] && t == [t[0]] + t[1..];
    }
  }

  lemma {:induction false} ListingUnique(asc: bool, s: seq<Key>)
    requires Ordered(asc, s)
    ensures Listing(asc, Elements(s)) == s
  {
    ListingFacts(asc, Elements(s));
    OrderedUnique(asc, Listing(asc, Elements(s)), s);
  }

  /** In an ordered sequence, what follows the i-th key is what comes after its place. */
  lemma {:induction false} SuffixElements(asc: bool, s: seq<Key>, i: nat)
    requires Ordered(asc, s) && 0 < i <= |s|
    ensures (set k | k in Elements(s) && Precedes(asc, s[i - 1], k)) == Elements(s[i..])
  {
    forall k | k in s && Precedes(asc, s[i - 1], k) ensures k in s[i..] {
      var j :| 0 <= j < |s| && s[j] == k;
      Total(asc, s[i - 1], k);
      assert s[i..][j - i] == k;
    }
  }

  lemma {:induction false} RestElements(asc: bool, s: seq<Key>, i: nat)
    requires Ordered(asc, s) && i <= |s|
    ensures Elements(s) - Elements(s[..i]) == Elements(s[i..])
  {
    assert s == s[..i] + s[i..];
    forall k | k in s[i..] ensures k !in s[..i] {
      Total(asc, k, k);
    }
  }

  /** Asking again for what comes after the i-th key continues the listing. */
  lemma {:induction false} ListingContinues(asc: bool, keys: set<Key>, s: seq<Key>, i: nat)
    requires s == Listing(asc, keys) && 0 < i <= |s|
    ensures Listing(asc, set k | k in keys && Precedes(asc, s[i - 1], k)) == s[i..]
  {
    ListingFacts(asc, keys);
    SuffixElements(asc, s, i);
    ListingUnique(asc, s[i..]);
  }

  /** Removing the front of a listing leaves its rest. */
  lemma {:induction false} ListingRest(asc: bool, keys: set<Key>, s: seq<Key>, i: nat)
    requires s == Listing(asc, keys) && i <= |s|
    ensures Listing(asc, keys - Elements(s[..i])) == s[i..]
  {
    ListingFacts(asc, keys);
    RestElements(asc, s, i);
    ListingUnique(asc, s[i..]);
  }

  function Reverse(s: seq<Key>): (r: seq<Key>)
    ensures |r| == |s| && forall i | 0 <= i < |s| :: r[i] == s[|s| - 1 - i]
  {
    seq(|s|, i requires 0 <= i < |s| => s[|s| - 1 - i])
  }

  /** In an ordered sequence, what precedes the i-th key is what comes before its place. */
  lemma {:induction false} PrefixElements(asc: bool, s: seq<Key>, i: nat)
    requires Ordered(asc, s) && i < |s|
    ensures (set k | k in Elements(s) && Precedes(!asc, s[i], k)) == Elements(s[..i])
  {
    forall k | k in s && Precedes(!asc, s[i], k) ensures k in s[..i] {
      var j :| 0 <= j < |s| && s[j] == k;
      Total(asc, k, s[i]);
      assert s[..i][j] == k;
    }
  }

  lemma {:induction false} ReverseOrdered(asc: bool, s: seq<Key>)
    requires Ordered(asc, s)
    ensures Ordered(!asc, Reverse(s)) && Elements(Reverse(s)) == Elements(s)
  {
    forall k | k in s ensures k in Reverse(s) {
      var j :| 0 <= j < |s| && s[j] == k;
      assert Reverse(s)[|s| - 1 - j] == k;
    }
  }

  /** What precedes the i-th key, backwards, is the listing of it in the other direction. */
  lemma {:induction false} ListingBackwards(asc: bool, keys: set<Key>, s: seq<Key>, i: nat)
    requires s == Listing(asc, keys) && i < |s|
    ensures Listing(!asc, set k | k in keys && Precedes(!asc, s[i], k)) == Reverse(s[..i])
  {
    ListingFacts(asc, keys);
    PrefixElements(asc, s, i);
    ReverseOrdered(asc, s[..i]);
    ListingUnique(!asc, Reverse(s[..i]));
  }
}
