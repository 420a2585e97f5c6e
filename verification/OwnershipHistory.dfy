/**
 The time-versioned ownership history of one service: the two statements that close and open
 intervals, and what the intervals say about every instant.
 */
module OwnershipHistory {
  import opened Wrappers
  import opened Events
  import opened CatalogDomain

  datatype Interval = Interval(owner: Ownership, start: Time, end: Option<Time>) {
    predicate Covers(t: Time) { start <= t && (end.Some? ==> t < end.value) }
  }

  /** One committed write to the service row: who owned it from then on, and when. */
  datatype Stamp = Stamp(owner: Ownership, at: Time)

  /** UPDATE ... SET valid_to WHERE valid_to IS NULL AND the owner is distinct. */
  function Close(h: seq<Interval>, o: Ownership, at: Time): (r: seq<Interval>)
  {
    seq(|h|, i requires 0 <= i < |h| => if h[i].end == None && h[i].owner != o then h[i].(end := Some(at)) else h[i])
  }

  /** INSERT ... WHERE NOT EXISTS an open interval of that owner. */
  function Open(h: seq<Interval>, o: Ownership, at: Time): seq<Interval> {
    if exists i :: 0 <= i < |h| && h[i].end == None && h[i].owner == o then h else h + [Interval(o, at, None)]
  }

  function Record(h: seq<Interval>, o: Ownership, at: Time): seq<Interval> {
    Open(Close(h, o, at), o, at)
  }

  function First(o: Ownership, at: Time): seq<Interval> { [Interval(o, at, None)] }

  /** The history a sequence of writes leaves behind. */
  function HistoryOf(ws: seq<Stamp>): seq<Interval>
    requires ws != []
  {
    var last := ws[|ws| - 1];
    if |ws| == 1 then First(last.owner, last.at)
    else Record(HistoryOf(ws[..|ws| - 1]), last.owner, last.at)
  }

  lemma {:induction false} HistoryAppend(ws: seq<Stamp>, w: Stamp)
    ensures HistoryOf(ws + [w]) == if ws == [] then First(w.owner, w.at) else Record(HistoryOf(ws), w.owner, w.at)
    ensures InOrder(ws) && (ws == [] || ws[|ws| - 1].at <= w.at) ==> InOrder(ws + [w])
  {
    assert (ws + [w])[..|ws|] == ws;
  }

  /** Chained, alternating owners, open at the end only. */
  predicate Chained(h: seq<Interval>) {
    && h != []
    && h[|h| - 1].end == None
    && forall i {:trigger h[i].end} {:trigger h[i].owner} | 0 <= i < |h| - 1 ::
         h[i].end == Some(h[i + 1].start) && h[i].owner != h[i + 1].owner
  }

  /** Recording keeps the chain: a new owner closes the last interval and opens the next. */
  lemma {:induction false} RecordOnChain(h: seq<Interval>, o: Ownership, at: Time)
    requires Chained(h)
    ensures Chained(Record(h, o, at))
    ensures var n := |h| - 1;
            Record(h, o, at) == if h[n].owner == o then h
                                else h[..n] + [h[n].(end := Some(at)), Interval(o, at, None)]
  {
    var n := |h| - 1;
    var c := Close(h, o, at);
    forall i | 0 <= i < n ensures c[i] == h[i] {
      assert h[i].end.Some?;
    }
    if h[n].owner == o {
      assert c == h;
      assert h[n].end == None;
    } else {
      assert c == h[..n] + [h[n].(end := Some(at))];
      assert Open(c, o, at) == c + [Interval(o, at, None)];
    }
  }

  lemma {:induction false} HistoryShape(ws: seq<Stamp>)
    requires ws != []
    ensures var h := HistoryOf(ws);
            && Chained(h) && h[0].start == ws[0].at && h[0].owner == ws[0].owner
            && h[|h| - 1].owner == ws[|ws| - 1].owner
  {
    var last := ws[|ws| - 1];
    if |ws| > 1 {
      var front := ws[..|ws| - 1];
      HistoryShape(front);
      RecordOnChain(HistoryOf(front), last.owner, last.at);
    }
  }

  predicate InOrder(ws: seq<Stamp>) {
    forall i, j | 0 <= i < j < |ws| :: ws[i].at <= ws[j].at
  }

  /** The owner written by the last write at or before t, in commit order. */
  function OwnerAsOf(ws: seq<Stamp>, t: Time): Ownership
    requires ws != [] && ws[0].at <= t
  {
    var last := ws[|ws| - 1];
    if last.at <= t then last.owner else OwnerAsOf(ws[..|ws| - 1], t)
  }

  /** Exactly one interval covers t, and it names the owner as of t. */
  ghost predicate Resolves(h: seq<Interval>, ws: seq<Stamp>, t: Time)
    requires ws != [] && ws[0].at <= t
  {
    exists k :: 0 <= k < |h| && h[k].Covers(t) && h[k].owner == OwnerAsOf(ws, t)
                && forall j | 0 <= j < |h| && h[j].Covers(t) :: j == k
  }

  /** A write after t does not disturb what is known at t; one at or before t decides it. */
  lemma {:induction false} RecordResolves(g: seq<Interval>, o: Ownership, at: Time, t: Time, k: nat)
    requires Chained(g) && forall i | 0 <= i < |g| :: g[i].start <= at
    requires k < |g| && g[k].Covers(t) && forall j | 0 <= j < |g| && g[j].Covers(t) :: j == k
    ensures var h := Record(g, o, at);
            exists k' :: 0 <= k' < |h| && h[k'].Covers(t) && h[k'].owner == (if at <= t then o else g[k].owner)
                         && forall j | 0 <= j < |h| && h[j].Covers(t) :: j == k'
  {
    var n := |g| - 1;
    var h := Record(g, o, at);
    RecordOnChain(g, o, at);
    if g[n].owner == o {
      if at <= t {
        assert g[n].Covers(t);
      }
      assert h[k].Covers(t);
    } else if at <= t {
      assert g[n].Covers(t);
      assert h[n + 1].Covers(t);
    } else {
      forall j | 0 <= j < |h| && h[j].Covers(t) ensures j == k {
        assert j <= n && g[j].Covers(t);
      }
      assert h[k].Covers(t);
    }
  }

  lemma {:induction false} StartsBounded(ws: seq<Stamp>)
    requires ws != [] && InOrder(ws)
    ensures forall i | 0 <= i < |HistoryOf(ws)| :: HistoryOf(ws)[i].start <= ws[|ws| - 1].at
  {
    if |ws| > 1 {
      var front := ws[..|ws| - 1];
      StartsBounded(front);
      HistoryShape(front);
      RecordOnChain(HistoryOf(front), ws[|ws| - 1].owner, ws[|ws| - 1].at);
    }
  }

  /** With writes in clock order, the history answers "who owned this at t" for every t. */
  lemma {:induction false} HistoryTilesTime(ws: seq<Stamp>, t: Time)
    requires ws != [] && InOrder(ws) && ws[0].at <= t
    ensures Resolves(HistoryOf(ws), ws, t)
  {
    if |ws| == 1 {
      assert HistoryOf(ws)[0].Covers(t);
    } else {
      var last, front := ws[|ws| - 1], ws[..|ws| - 1];
      var g := HistoryOf(front);
      HistoryTilesTime(front, t);
      HistoryShape(front);
      StartsBounded(front);
      var k :| 0 <= k < |g| && g[k].Covers(t) && g[k].owner == OwnerAsOf(front, t)
               && forall j | 0 <= j < |g| && g[j].Covers(t) :: j == k;
      RecordResolves(g, last.owner, last.at, t, k);
    }
  }

  // --- The clock condition is exact ---

  /** Covered once from the first write on, and never before it. */
  ghost predicate Tiles(h: seq<Interval>, origin: Time) {
    forall t :: CoverCount(h, t) == if origin <= t then 1 else 0
  }

  function CoverCount(h: seq<Interval>, t: Time): nat {
    if h == [] then 0 else (if h[0].Covers(t) then 1 else 0) + CoverCount(h[1..], t)
  }

  /** Intervals that run backwards: closed at or before t although opened after it. */
  function BackCount(h: seq<Interval>, t: Time): nat {
    if h == [] then 0
    else (if h[0].end.Some? && h[0].end.value <= t < h[0].start then 1 else 0) + BackCount(h[1..], t)
  }

  /** A chain from `start` to the open end crosses every instant upwards once more than downwards. */
  lemma {:induction false} CrossingCount(h: seq<Interval>, t: Time)
    requires Chained(h)
    ensures CoverCount(h, t) == BackCount(h, t) + if h[0].start <= t then 1 else 0
  {
    if |h| > 1 {
      var rest := h[1..];
      assert h[0].end == Some(h[1].start);
      assert Chained(rest) by {
        forall i | 0 <= i < |rest| - 1
          ensures rest[i].end == Some(rest[i + 1].start) && rest[i].owner != rest[i + 1].owner
        {
          assert rest[i] == h[i + 1];
          assert h[i + 1].end == Some(h[i + 2].start);
        }
      }
      CrossingCount(rest, t);
    }
  }

  lemma {:induction false} BackCountPositive(h: seq<Interval>, k: nat, t: Time)
    requires k < |h| && h[k].end.Some? && h[k].end.value <= t < h[k].start
    ensures BackCount(h, t) > 0
  {
    if k > 0 {
      BackCountPositive(h[1..], k - 1, t);
    }
  }

  lemma {:induction false} BackCountZero(h: seq<Interval>, t: Time)
    requires forall i | 0 <= i < |h| :: h[i].end.Some? ==> h[i].start <= h[i].end.value
    ensures BackCount(h, t) == 0
  {
    if h != [] {
      BackCountZero(h[1..], t);
    }
  }

  /** The writes at which the owner changed hands, first write included. */
  function Handovers(ws: seq<Stamp>): seq<Stamp> {
    if ws == [] then []
    else
      var last := ws[|ws| - 1];
      var front := Handovers(ws[..|ws| - 1]);
      if |ws| > 1 && ws[|ws| - 2].owner == last.owner then front else front + [last]
  }

  lemma {:induction false} HandoversFirst(ws: seq<Stamp>)
    requires ws != []
    ensures var hs := Handovers(ws); hs != [] && hs[0] == ws[0] && hs[|hs| - 1].owner == ws[|ws| - 1].owner
  {
    if |ws| > 1 {
      HandoversFirst(ws[..|ws| - 1]);
    }
  }

  lemma {:induction false} HandoversAppend(ws: seq<Stamp>, w: Stamp)
    requires ws != [] && ws[|ws| - 1].owner != w.owner
    ensures Handovers(ws + [w]) == Handovers(ws) + [w]
  {
    assert (ws + [w])[..|ws|] == ws;
  }

  /** Only hand-overs leave a trace in the history. */
  lemma {:induction false} HistoryOfHandovers(ws: seq<Stamp>)
    requires ws != []
    ensures Handovers(ws) != [] && HistoryOf(Handovers(ws)) == HistoryOf(ws)
  {
    if |ws| > 1 {
      var last, front := ws[|ws| - 1], ws[..|ws| - 1];
      HistoryOfHandovers(front);
      HistoryShape(front);
      RecordOnChain(HistoryOf(front), last.owner, last.at);
      HistoryAppend(Handovers(front), last);
      assert front[|front| - 1] == ws[|ws| - 2];
    }
  }

  lemma {:induction false} HandoversInOrder(ws: seq<Stamp>)
    requires InOrder(ws)
    ensures InOrder(Handovers(ws)) && forall h | h in Handovers(ws) :: h in ws
  {
    if ws != [] {
      var front, last := ws[..|ws| - 1], ws[|ws| - 1];
      HandoversInOrder(front);
      forall h | h in Handovers(front) ensures h.at <= last.at {
        var i :| 0 <= i < |front| && front[i] == h;
        assert ws[i].at <= last.at;
      }
    }
  }

  /** An interval opens at each hand-over. */
  lemma {:induction false} StartsAreHandovers(ws: seq<Stamp>)
    requires ws != []
    ensures var h := HistoryOf(ws);
            |h| == |Handovers(ws)| && forall i | 0 <= i < |h| :: h[i].start == Handovers(ws)[i].at
  {
    if |ws| > 1 {
      var last := ws[|ws| - 1];
      var front := ws[..|ws| - 1];
      StartsAreHandovers(front);
      HistoryShape(front);
      RecordOnChain(HistoryOf(front), last.owner, last.at);
      assert front[|front| - 1] == ws[|ws| - 2];
    }
  }

  /** In order, step by step. */
  lemma {:induction false} StepwiseInOrder(ws: seq<Stamp>)
    requires forall i | 0 < i < |ws| :: NotBefore(ws, i)
    ensures InOrder(ws)
  {
    if ws != [] {
      var front := ws[..|ws| - 1];
      forall i | 0 < i < |front| ensures NotBefore(front, i) {
        assert NotBefore(ws, i);
      }
      StepwiseInOrder(front);
      if |ws| > 1 {
        assert NotBefore(ws, |ws| - 1);
      }
    }
  }

  predicate NotBefore(ws: seq<Stamp>, i: nat)
    requires 0 < i < |ws|
  {
    ws[i - 1].at <= ws[i].at
  }

  /** The history tiles time exactly when no hand-over is stamped before the one it follows. */
  lemma {:induction false} TilesExactlyWhenInOrder(ws: seq<Stamp>)
    requires ws != []
    ensures Tiles(HistoryOf(ws), ws[0].at) <==> InOrder(Handovers(ws))
  {
    var h, hs := HistoryOf(ws), Handovers(ws);
    HistoryShape(ws);
    StartsAreHandovers(ws);
    if InOrder(hs) {
      forall t ensures CoverCount(h, t) == if ws[0].at <= t then 1 else 0 {
        CrossingCount(h, t);
        forall i | 0 <= i < |h| && h[i].end.Some? ensures h[i].start <= h[i].end.value {
          assert h[i].end == Some(h[i + 1].start);
        }
        BackCountZero(h, t);
      }
    } else {
      if forall i | 0 < i < |hs| :: NotBefore(hs, i) {
        StepwiseInOrder(hs);
      }
      var i :| 0 < i < |hs| && !NotBefore(hs, i);
      var t := hs[i].at;
      assert h[i - 1].end == Some(h[i].start);
      BackCountPositive(h, i - 1, t);
      CrossingCount(h, t);
      assert CoverCount(h, t) != if ws[0].at <= t then 1 else 0;
    }
  }
}
