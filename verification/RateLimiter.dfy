/**
 The per-key rate limiter and its eviction of idle keys. Times and tokens are real numbers, and
 `allow` reads the clock twice: once for `seen` and once, later, inside the token bucket. The
 theorem gives the exact condition under which evicting is invisible to every client.
 */
module RateLimiter {

  datatype Config = Config(rps: real, burst: int, ttl: real)

  /** A token bucket as of the last call it allowed. */
  datatype Bucket = Bucket(tokens: real, last: real)

  datatype Entry = Entry(bucket: Bucket, seen: real)

  type Buckets = map<string, Entry>

  /** The tokens gained between two instants. */
  function Gain(c: Config, from: real, to: real): real { (to - from) * c.rps }

  function Refilled(c: Config, b: Bucket, now: real): real { b.tokens + Gain(c, b.last, now) }

  function Level(c: Config, b: Bucket, now: real): real {
    if Refilled(c, b, now) < c.burst as real then Refilled(c, b, now) else c.burst as real
  }

  function Full(c: Config, now: real): Bucket { Bucket(c.burst as real, now) }

  predicate Allows(c: Config, b: Bucket, now: real) { c.burst >= 1 && Level(c, b, now) >= 1.0 }

  /** A call that is denied changes nothing. */
  function Spend(c: Config, b: Bucket, now: real): Bucket {
    if Allows(c, b, now) then Bucket(Level(c, b, now) - 1.0, now) else b
  }

  /** Calls, and the reaper looking at one entry. */
  datatype Event = Call(key: string, seen: real, at: real) | Look(key: string, now: real)

  function BucketOf(c: Config, m: Buckets, key: string, now: real): Bucket {
    if key in m then m[key].bucket else Full(c, now)
  }

  function Called(c: Config, m: Buckets, e: Event): Buckets
    requires e.Call?
  {
    m[e.key := Entry(Spend(c, BucketOf(c, m, e.key, e.at), e.at), e.seen)]
  }

  predicate Stale(c: Config, m: Buckets, e: Event)
    requires e.Look?
  {
    e.key in m && e.now - m[e.key].seen > c.ttl
  }

  /** The limiter with its reaper, and the one that never evicts. */
  function Reaping(c: Config, m: Buckets, e: Event): Buckets {
    if e.Call? then Called(c, m, e) else if Stale(c, m, e) then m - {e.key} else m
  }

  function Keeping(c: Config, m: Buckets, e: Event): Buckets { if e.Call? then Called(c, m, e) else m }

  function Answer(c: Config, m: Buckets, e: Event): bool { e.Call? && Allows(c, BucketOf(c, m, e.key, e.at), e.at) }

  function ReapingAnswers(c: Config, m: Buckets, es: seq<Event>): seq<bool>
    decreases |es|
  {
    if es == [] then [] else [Answer(c, m, es[0])] + ReapingAnswers(c, Reaping(c, m, es[0]), es[1..])
  }

  function KeepingAnswers(c: Config, m: Buckets, es: seq<Event>): seq<bool>
    decreases |es|
  {
    if es == [] then [] else [Answer(c, m, es[0])] + KeepingAnswers(c, Keeping(c, m, es[0]), es[1..])
  }

  /** Events from time t on: the clock never goes back, and a call's two readings are within the gap. */
  predicate IsSchedule(gap: real, t: real, es: seq<Event>)
    decreases |es|
  {
    es == []
    || match es[0]
       case Call(_, seen, at) => t <= seen <= at <= seen + gap && IsSchedule(gap, at, es[1..])
       case Look(_, now) => t <= now && IsSchedule(gap, now, es[1..])
  }

  function Min(a: real, b: real): real { if a < b then a else b }

  /** Within a key's time to live, an idle bucket fills up even after the worst pair of readings. */
  predicate FillsInTime(c: Config, gap: real) { FillsWhenDrained(c, gap) && FillsAfterOne(c, gap) }

  predicate FillsWhenDrained(c: Config, gap: real) {
    c.burst as real <= Gain(c, 0.0, c.ttl) - Min(1.0, Gain(c, 0.0, gap))
  }

  predicate FillsAfterOne(c: Config, gap: real) { Gain(c, gap, c.ttl) >= 1.0 }

  // --- Sufficient ---

  lemma {:induction false} Monotone(rps: real, a: real, b: real)
    requires rps > 0.0 && a <= b
    ensures a * rps <= b * rps
  {
  }

  lemma {:induction false} GainMonotone(c: Config, from: real, to: real, later: real)
    requires c.rps > 0.0 && to <= later
    ensures Gain(c, from, to) <= Gain(c, from, later)
  {
    Monotone(c.rps, to - from, later - from);
  }

  lemma {:induction false} GainAdds(c: Config, a: real, b: real, d: real)
    ensures Gain(c, a, d) == Gain(c, a, b) + Gain(c, b, d)
  {
  }

  lemma {:induction false} GainShifts(c: Config, a: real, b: real, d: real)
    ensures Gain(c, a + d, b + d) == Gain(c, a, b)
  {
    assert b + d - (a + d) == b - a;
  }

  lemma {:induction false} NoTimeNoGain(c: Config, at: real)
    ensures Gain(c, at, at) == 0.0
  {
    assert at - at == 0.0;
  }

  /** What is known of an entry at time t: it will be full again when it expires. */
  ghost predicate EntryOk(c: Config, t: real, e: Entry) {
    && 0.0 <= e.bucket.tokens <= c.burst as real && e.bucket.last <= t && e.seen <= t
    && Refilled(c, e.bucket, e.seen + c.ttl) >= c.burst as real
  }

  /** The two limiters agree on a key, or the one has evicted a bucket that is full in the other. */
  ghost predicate Agree(c: Config, t: real, m: Buckets, k: Buckets, key: string) {
    if key in m then key in k && m[key] == k[key] && EntryOk(c, t, m[key])
    else key in k ==> k[key].bucket.last <= t && Refilled(c, k[key].bucket, t) >= c.burst as real
  }

  lemma {:induction false} RefillsOn(c: Config, b: Bucket, t: real, t': real)
    requires c.rps > 0.0 && t <= t'
    ensures Refilled(c, b, t) <= Refilled(c, b, t')
  {
    GainMonotone(c, b.last, t, t');
  }

  lemma {:induction false} AgreeLater(c: Config, t: real, t': real, m: Buckets, k: Buckets, key: string)
    requires c.rps > 0.0 && t <= t' && Agree(c, t, m, k, key)
    ensures Agree(c, t', m, k, key)
  {
    if key !in m && key in k {
      RefillsOn(c, k[key].bucket, t, t');
    }
  }

  /** What is gained before, between and after the two readings of a call. */
  lemma {:induction false} Gains(c: Config, gap: real, last: real, seen: real, at: real)
    requires c.rps > 0.0 && last <= seen <= at <= seen + gap
    ensures 0.0 <= Gain(c, seen, at) <= Gain(c, 0.0, gap) && 0.0 <= Gain(c, last, seen)
    ensures Gain(c, last, at) == Gain(c, last, seen) + Gain(c, seen, at)
    ensures Gain(c, at, seen + c.ttl) == Gain(c, 0.0, c.ttl) - Gain(c, seen, at)
    ensures Gain(c, gap, c.ttl) == Gain(c, 0.0, c.ttl) - Gain(c, 0.0, gap)
  {
    NoTimeNoGain(c, seen);
    NoTimeNoGain(c, last);
    GainMonotone(c, seen, seen, at);
    GainMonotone(c, last, last, seen);
    GainMonotone(c, seen, at, seen + gap);
    GainShifts(c, 0.0, gap, seen);
    GainShifts(c, 0.0, c.ttl, seen);
    GainAdds(c, last, seen, at);
    GainAdds(c, seen, at, seen + c.ttl);
    GainAdds(c, 0.0, gap, c.ttl);
    assert 0.0 + seen == seen && gap + seen == seen + gap && c.ttl + seen == seen + c.ttl;
  }

  /**
   In tokens: `had` at `seen`, `gained` between the two readings, at most `most`, over a `life`.
   What is left after the call, and what is gained until the entry expires, fill the bucket.
   */
  lemma {:induction false} FillsUp(burst: real, had: real, gained: real, most: real, life: real)
    requires 0.0 <= had && 0.0 <= gained <= most && burst <= life - Min(1.0, most) && life - most >= 1.0
    requires Min(burst, had + gained) >= 1.0
    ensures Min(burst, had + gained) - 1.0 + (life - gained) >= burst
  {
  }

  lemma {:induction false} EntryFrom(c: Config, level: real, seen: real, at: real)
    requires 1.0 <= level <= c.burst as real && seen <= at && level - 1.0 + Gain(c, at, seen + c.ttl) >= c.burst as real
    ensures EntryOk(c, at, Entry(Bucket(level - 1.0, at), seen))
  {
  }

  /** An allowed call leaves a bucket that fills up before its entry expires. */
  lemma {:induction false} SpendFillsUp(c: Config, gap: real, b: Bucket, seen: real, at: real)
    requires c.rps > 0.0 && c.burst >= 1 && FillsInTime(c, gap) && seen <= at <= seen + gap
    requires 0.0 <= b.tokens <= c.burst as real && b.last <= seen && Allows(c, b, at)
    ensures EntryOk(c, at, Entry(Spend(c, b, at), seen))
  {
    Gains(c, gap, b.last, seen, at);
    FillsUp(c.burst as real, b.tokens + Gain(c, b.last, seen), Gain(c, seen, at), Gain(c, 0.0, gap), Gain(c, 0.0, c.ttl));
    EntryFrom(c, Level(c, b, at), seen, at);
  }

  lemma {:induction false} LevelAtOnce(c: Config, tokens: real, at: real)
    requires tokens <= c.burst as real
    ensures Level(c, Bucket(tokens, at), at) == tokens
  {
    NoTimeNoGain(c, at);
  }

  /** The first call on a full bucket. */
  lemma {:induction false} FirstSpendFillsUp(c: Config, gap: real, seen: real, at: real)
    requires c.rps > 0.0 && c.burst >= 1 && FillsInTime(c, gap) && seen <= at <= seen + gap
    ensures Allows(c, Full(c, at), at) && EntryOk(c, at, Entry(Spend(c, Full(c, at), at), seen))
  {
    LevelAtOnce(c, c.burst as real, at);
    Gains(c, gap, seen, seen, at);
    EntryFrom(c, c.burst as real, seen, at);
  }

  /** A denied call only prolongs the entry's life. */
  lemma {:induction false} DeniedStays(c: Config, t: real, e: Entry, seen: real, at: real)
    requires c.rps > 0.0 && EntryOk(c, t, e) && t <= seen <= at
    ensures EntryOk(c, at, Entry(e.bucket, seen))
  {
    RefillsOn(c, e.bucket, e.seen + c.ttl, seen + c.ttl);
  }

  lemma {:induction false} CallAgrees(c: Config, gap: real, t: real, m: Buckets, k: Buckets, e: Event)
    requires c.rps > 0.0 && c.burst >= 1 && FillsInTime(c, gap) && e.Call? && t <= e.seen <= e.at <= e.seen + gap
    requires Agree(c, t, m, k, e.key)
    ensures Answer(c, m, e) == Answer(c, k, e) && Agree(c, e.at, Called(c, m, e), Called(c, k, e), e.key)
  {
    if e.key in m {
      if Allows(c, m[e.key].bucket, e.at) {
        SpendFillsUp(c, gap, m[e.key].bucket, e.seen, e.at);
      } else {
        DeniedStays(c, t, m[e.key], e.seen, e.at);
      }
    } else {
      FirstSpendFillsUp(c, gap, e.seen, e.at);
      if e.key in k {
        RefillsOn(c, k[e.key].bucket, t, e.at);
      }
    }
  }

  lemma {:induction false} LookAgrees(c: Config, t: real, m: Buckets, k: Buckets, e: Event)
    requires c.rps > 0.0 && e.Look? && t <= e.now && Agree(c, t, m, k, e.key)
    ensures Agree(c, e.now, Reaping(c, m, e), k, e.key)
  {
    AgreeLater(c, t, e.now, m, k, e.key);
    if Stale(c, m, e) {
      RefillsOn(c, m[e.key].bucket, m[e.key].seen + c.ttl, e.now);
    }
  }

  lemma {:induction false} AnswersAgree(c: Config, gap: real, t: real, m: Buckets, k: Buckets, es: seq<Event>)
    requires c.rps > 0.0 && c.burst >= 1 && FillsInTime(c, gap) && IsSchedule(gap, t, es)
    requires forall key :: Agree(c, t, m, k, key)
    ensures ReapingAnswers(c, m, es) == KeepingAnswers(c, k, es)
    decreases |es|
  {
    if es != [] {
      var e := es[0];
      var t' := if e.Call? then e.at else e.now;
      if e.Call? {
        CallAgrees(c, gap, t, m, k, e);
      } else {
        LookAgrees(c, t, m, k, e);
      }
      forall key ensures Agree(c, t', Reaping(c, m, e), Keeping(c, k, e), key) {
        if key != e.key {
          AgreeLater(c, t, t', m, k, key);
        }
      }
      AnswersAgree(c, gap, t', Reaping(c, m, e), Keeping(c, k, e), es[1..]);
    }
  }

  lemma {:induction false} NothingAllowed(c: Config, m: Buckets, k: Buckets, es: seq<Event>)
    requires c.burst < 1
    ensures ReapingAnswers(c, m, es) == KeepingAnswers(c, k, es)
    decreases |es|
  {
    if es != [] {
      NothingAllowed(c, Reaping(c, m, es[0]), Keeping(c, k, es[0]), es[1..]);
    }
  }

  // --- Necessary ---

  /** n calls at one instant. */
  function Burst(key: string, at: real, n: nat): seq<Event> {
    if n == 0 then [] else [Call(key, at, at)] + Burst(key, at, n - 1)
  }

  predicate AllTrue(bs: seq<bool>) { bs == [] || (bs[0] && AllTrue(bs[1..])) }

  lemma {:induction false} SpendLowers(c: Config, b: Bucket, at: real)
    requires Allows(c, b, at)
    ensures Level(c, Spend(c, b, at), at) == Level(c, b, at) - 1.0
  {
    LevelAtOnce(c, Level(c, b, at) - 1.0, at);
  }

  /** Only as many calls of a burst go through as there are tokens. */
  lemma {:induction false} BurstNeedsTokens(c: Config, k: Buckets, key: string, at: real, n: nat)
    requires key in k && AllTrue(KeepingAnswers(c, k, Burst(key, at, n)))
    ensures n == 0 || n as real <= Level(c, k[key].bucket, at)
    decreases n
  {
    if n > 0 {
      var e := Call(key, at, at);
      var es := Burst(key, at, n);
      assert es[0] == e && es[1..] == Burst(key, at, n - 1);
      assert KeepingAnswers(c, k, es)[1..] == KeepingAnswers(c, Called(c, k, e), Burst(key, at, n - 1));
      BurstNeedsTokens(c, Called(c, k, e), key, at, n - 1);
      SpendLowers(c, k[key].bucket, at);
    }
  }

  lemma {:induction false} BurstGoesThrough(c: Config, m: Buckets, key: string, at: real, n: nat)
    requires n as real <= Level(c, BucketOf(c, m, key, at), at)
    ensures AllTrue(ReapingAnswers(c, m, Burst(key, at, n)))
    decreases n
  {
    if n > 0 {
      var e := Call(key, at, at);
      var es := Burst(key, at, n);
      assert es[0] == e && es[1..] == Burst(key, at, n - 1);
      SpendLowers(c, BucketOf(c, m, key, at), at);
      BurstGoesThrough(c, Called(c, m, e), key, at, n - 1);
    }
  }

  lemma {:induction false} BurstSchedule(gap: real, key: string, at: real, n: nat)
    requires gap >= 0.0
    ensures IsSchedule(gap, at, Burst(key, at, n))
    decreases n
  {
    if n > 0 {
      assert Burst(key, at, n)[1..] == Burst(key, at, n - 1);
      BurstSchedule(gap, key, at, n - 1);
    }
  }

  /** Evicting a bucket that is not full shows: a burst goes through that the other limiter cuts off. */
  lemma {:induction false} EvictionShows(c: Config, gap: real, t: real, m: Buckets, key: string, now: real)
    requires c.burst >= 1 && gap >= 0.0 && key in m && t <= now && now - m[key].seen > c.ttl
    requires Level(c, m[key].bucket, now) < c.burst as real
    ensures var es := [Look(key, now)] + Burst(key, now, c.burst);
            IsSchedule(gap, t, es) && ReapingAnswers(c, m, es) != KeepingAnswers(c, m, es)
  {
    var look, es := Look(key, now), [Look(key, now)] + Burst(key, now, c.burst);
    assert es[0] == look && es[1..] == Burst(key, now, c.burst);
    BurstSchedule(gap, key, now, c.burst);
    LevelAtOnce(c, c.burst as real, now);
    BurstGoesThrough(c, m - {key}, key, now, c.burst);
    if ReapingAnswers(c, m, es) == KeepingAnswers(c, m, es) {
      assert ReapingAnswers(c, m, es)[1..] == ReapingAnswers(c, m - {key}, Burst(key, now, c.burst));
      assert KeepingAnswers(c, m, es)[1..] == KeepingAnswers(c, m, Burst(key, now, c.burst));
      BurstNeedsTokens(c, m, key, now, c.burst);
    }
  }

  // --- Schedules on which eviction shows ---

  lemma {:induction false} ThenReaping(c: Config, m: Buckets, e: Event, es: seq<Event>)
    ensures ReapingAnswers(c, m, [e] + es) == [Answer(c, m, e)] + ReapingAnswers(c, Reaping(c, m, e), es)
    ensures KeepingAnswers(c, m, [e] + es) == [Answer(c, m, e)] + KeepingAnswers(c, Keeping(c, m, e), es)
  {
    assert ([e] + es)[1..] == es;
  }

  /** Some schedule from here on tells the two limiters apart. */
  ghost predicate Shows(c: Config, gap: real, t: real, m: Buckets) {
    exists es :: IsSchedule(gap, t, es) && ReapingAnswers(c, m, es) != KeepingAnswers(c, m, es)
  }

  lemma {:induction false} ShowsBefore(c: Config, gap: real, t: real, m: Buckets, e: Event)
    requires e.Call? && t <= e.seen <= e.at <= e.seen + gap && Shows(c, gap, e.at, Called(c, m, e))
    ensures Shows(c, gap, t, m)
  {
    var es :| IsSchedule(gap, e.at, es)
              && ReapingAnswers(c, Called(c, m, e), es) != KeepingAnswers(c, Called(c, m, e), es);
    assert ([e] + es)[1..] == es;
    assert IsSchedule(gap, t, [e] + es);
    ThenReaping(c, m, e, es);
    assert ReapingAnswers(c, m, [e] + es)[1..] == ReapingAnswers(c, Called(c, m, e), es);
    assert KeepingAnswers(c, m, [e] + es)[1..] == KeepingAnswers(c, Called(c, m, e), es);
  }

  lemma {:induction false} ShowsAfterIdle(c: Config, gap: real, t: real, m: Buckets, key: string, now: real)
    requires c.burst >= 1 && gap >= 0.0 && key in m && t <= now && now - m[key].seen > c.ttl
    requires Level(c, m[key].bucket, now) < c.burst as real
    ensures Shows(c, gap, t, m)
  {
    EvictionShows(c, gap, t, m, key, now);
  }

  /** An instant strictly between two reals, and not negative if the later one is positive. */
  function Between(a: real, b: real): (d: real)
    requires a < b && 0.0 < b
    ensures a < d < b && 0.0 <= d
  {
    if a < 0.0 then 0.0 else (a + b) / 2.0
  }

  /** One call on a full bucket, its readings as far apart as they get; then nothing until it expires. */
  lemma {:induction false} SlowCallShows(c: Config, gap: real)
    requires c.rps > 0.0 && c.burst >= 1 && gap >= 0.0 && !FillsAfterOne(c, gap)
    ensures Shows(c, gap, 0.0, map[])
  {
    var call := Call("k", 0.0, gap);
    var m := Called(c, map[], call);
    LevelAtOnce(c, c.burst as real, gap);
    assert m["k"] == Entry(Bucket(c.burst as real - 1.0, gap), 0.0);
    var d := IdleTime(c, gap, c.ttl, 1.0);
    ShowsAfterIdle(c, gap, gap, m, "k", gap + d);
    ShowsBefore(c, gap, 0.0, map[], call);
  }

  /** A time that outlasts `to`, counted from `from`, in which fewer than `tokens` are gained. */
  lemma {:induction false} IdleTime(c: Config, from: real, to: real, tokens: real) returns (d: real)
    requires c.rps > 0.0 && tokens > 0.0 && Gain(c, from, to) < tokens
    ensures to < from + d && 0.0 <= d && Gain(c, from, from + d) < tokens
  {
    var most := TimeFor(c, tokens);
    assert to - from < most by {
      if to - from >= most {
        Monotone(c.rps, most, to - from);
      }
    }
    d := Between(to - from, most);
    StrictlyMonotone(c.rps, d, most);
    assert from + d - from == d;
  }

  lemma {:induction false} TimeFor(c: Config, tokens: real) returns (d: real)
    requires c.rps > 0.0 && tokens > 0.0
    ensures d > 0.0 && d * c.rps == tokens
  {
    d := tokens / c.rps;
    assert d * c.rps == tokens;
    if d <= 0.0 {
      Monotone(c.rps, d, 0.0);
    }
  }

  lemma {:induction false} StrictlyMonotone(rps: real, a: real, b: real)
    requires rps > 0.0 && a < b
    ensures a * rps < b * rps
  {
  }

  /** A bucket with n tokens, drained by n calls at one instant. */
  lemma {:induction false} DrainShows(c: Config, gap: real, m: Buckets, at: real, n: nat)
    requires c.burst >= 1 && gap >= 0.0 && "k" in m && m["k"] == Entry(Bucket(n as real, at), at) && n <= c.burst
    requires Shows(c, gap, at, m["k" := Entry(Bucket(0.0, at), at)])
    ensures Shows(c, gap, at, m)
    decreases n
  {
    if n > 0 {
      var call := Call("k", at, at);
      LevelAtOnce(c, n as real, at);
      var m' := Called(c, m, call);
      assert m' == m["k" := Entry(Bucket((n - 1) as real, at), at)];
      assert m'["k" := Entry(Bucket(0.0, at), at)] == m["k" := Entry(Bucket(0.0, at), at)];
      DrainShows(c, gap, m', at, n - 1);
      ShowsBefore(c, gap, at, m, call);
    } else {
      assert m == m["k" := Entry(Bucket(0.0, at), at)];
    }
  }

  /** A drained bucket, one call at the very moment a token is back, then nothing until it expires. */
  lemma {:induction false} LastTokenShows(c: Config, gap: real, m: Buckets, x: real)
    requires c.rps > 0.0 && c.burst >= 1 && 0.0 <= x <= gap && Gain(c, 0.0, x) <= 1.0 && Gain(c, x, c.ttl) < c.burst as real
    requires "k" in m && m["k"] == Entry(Bucket(0.0, 0.0), 0.0)
    ensures Shows(c, gap, 0.0, m)
  {
    var u := TimeFor(c, 1.0);
    assert u - 0.0 == u && Gain(c, 0.0, u) == 1.0;
    assert x <= u by {
      if x > u {
        StrictlyMonotone(c.rps, u, x);
      }
    }
    var call := Call("k", u - x, u);
    assert Refilled(c, m["k"].bucket, u) == 1.0;
    var m' := Called(c, m, call);
    assert m'["k"] == Entry(Bucket(0.0, u), u - x);
    GainShifts(c, x, c.ttl, u - x);
    assert x + (u - x) == u;
    var d := IdleTime(c, u, c.ttl + (u - x), c.burst as real);
    ShowsAfterIdle(c, gap, u, m', "k", u + d);
    ShowsBefore(c, gap, 0.0, m, call);
  }

  /** From the start: the first calls drain the bucket. */
  lemma {:induction false} BusyThenIdleShows(c: Config, gap: real, x: real)
    requires c.rps > 0.0 && c.burst >= 1 && 0.0 <= x <= gap && Gain(c, 0.0, x) <= 1.0 && Gain(c, x, c.ttl) < c.burst as real
    ensures Shows(c, gap, 0.0, map[])
  {
    var call := Call("k", 0.0, 0.0);
    var m := Called(c, map[], call);
    LevelAtOnce(c, c.burst as real, 0.0);
    assert m["k"] == Entry(Bucket((c.burst - 1) as real, 0.0), 0.0);
    LastTokenShows(c, gap, m["k" := Entry(Bucket(0.0, 0.0), 0.0)], x);
    DrainShows(c, gap, m, 0.0, c.burst - 1);
    ShowsBefore(c, gap, 0.0, map[], call);
  }

  /**
   Exactly when eviction is invisible. For any two clock readings of a call at most `gap` apart,
   the limiter that evicts idle keys answers every schedule like one that never evicts if and only
   if it never allows anything, or an idle bucket fills up within the time to live less what the
   readings may cost.
   */
  lemma {:induction false} EvictionInvisibleExactly(c: Config, gap: real)
    requires c.rps > 0.0 && gap >= 0.0
    ensures !Shows(c, gap, 0.0, map[]) <==> c.burst < 1 || FillsInTime(c, gap)
  {
    if c.burst < 1 {
      forall es | IsSchedule(gap, 0.0, es) ensures ReapingAnswers(c, map[], es) == KeepingAnswers(c, map[], es) {
        NothingAllowed(c, map[], map[], es);
      }
    } else if FillsInTime(c, gap) {
      forall es | IsSchedule(gap, 0.0, es) ensures ReapingAnswers(c, map[], es) == KeepingAnswers(c, map[], es) {
        AnswersAgree(c, gap, 0.0, map[], map[], es);
      }
    } else if !FillsAfterOne(c, gap) {
      SlowCallShows(c, gap);
    } else {
      var x := WorstGap(c, gap);
      BusyThenIdleShows(c, gap, x);
    }
  }

  lemma {:induction false} WorstGap(c: Config, gap: real) returns (x: real)
    requires c.rps > 0.0 && gap >= 0.0 && !FillsWhenDrained(c, gap)
    ensures 0.0 <= x <= gap && Gain(c, 0.0, x) <= 1.0 && Gain(c, x, c.ttl) < c.burst as real
  {
    if Gain(c, 0.0, gap) <= 1.0 {
      x := gap;
    } else {
      x := TimeFor(c, 1.0);
      assert x - 0.0 == x && Gain(c, 0.0, x) == 1.0;
      assert x <= gap by {
        if x > gap {
          GainMonotone(c, 0.0, gap, x);
        }
      }
    }
    GainAdds(c, 0.0, x, c.ttl);
  }

  /** With a single reading per call: the bucket must fill within the time to live. */
  lemma {:induction false} EvictionInvisibleWithOneReading(c: Config)
    requires c.rps > 0.0
    ensures !Shows(c, 0.0, 0.0, map[]) <==> c.burst as real <= c.rps * c.ttl || c.burst < 1
  {
    EvictionInvisibleExactly(c, 0.0);
    NoTimeNoGain(c, 0.0);
    assert c.ttl - 0.0 == c.ttl && Gain(c, 0.0, c.ttl) == c.rps * c.ttl;
  }

  // --- The limiter as it runs ---

  /** A pass of the reaper: one look after another. */
  function ReapAll(c: Config, m: Buckets, looks: seq<Event>): Buckets {
    if looks == [] then m else Reaping(c, ReapAll(c, m, looks[..|looks| - 1]), looks[|looks| - 1])
  }

  /** The entries that are fresh, or whose keys have not been looked at. */
  function Remaining(c: Config, m: Buckets, keys: set<string>, now: string -> real): Buckets {
    map k | k in m && (k in keys || now(k) - m[k].seen <= c.ttl) :: m[k]
  }

  lemma {:induction false} RemainingLess(c: Config, m: Buckets, keys: set<string>, now: string -> real, key: string)
    requires key in keys && keys <= m.Keys
    ensures var rest := Remaining(c, m, keys, now);
            && key in rest && rest[key] == m[key]
            && Remaining(c, m, keys - {key}, now) == if now(key) - m[key].seen > c.ttl then rest - {key} else rest
  {
  }

  lemma {:induction false} ReapAllMore(c: Config, m: Buckets, looks: seq<Event>, e: Event)
    ensures ReapAll(c, m, looks + [e]) == Reaping(c, ReapAll(c, m, looks), e)
  {
    assert (looks + [e])[..|looks|] == looks;
  }

  class KeyedLimiter {
    const config: Config
    var buckets: Buckets

    constructor (rps: real, burst: int)
      ensures config == Config(rps, burst, 600.0) && buckets == map[]
    {
      config := Config(rps, burst, 600.0);
      buckets := map[];
    }

    method Allow(key: string, seen: real, at: real) returns (ok: bool)
      modifies this
      ensures ok == Answer(config, old(buckets), Call(key, seen, at))
      ensures buckets == Called(config, old(buckets), Call(key, seen, at))
    {
      if key !in buckets {
        buckets := buckets[key := Entry(Full(config, at), seen)];
      }
      var bucket := buckets[key].bucket;
      ok := Allows(config, bucket, at);
      buckets := buckets[key := Entry(Spend(config, bucket, at), seen)];
    }

    /** Looks at every entry once, in any order, each with its own reading of the clock. */
    method Reap(now: string -> real) returns (ghost looks: seq<Event>)
      modifies this
      ensures buckets == ReapAll(config, old(buckets), looks)
      ensures buckets == map k | k in old(buckets) && now(k) - old(buckets)[k].seen <= config.ttl :: old(buckets)[k]
    {
      looks := [];
      var keys := buckets.Keys;
      while keys != {}
        invariant keys <= old(buckets).Keys
        invariant buckets == ReapAll(config, old(buckets), looks)
        invariant buckets == Remaining(config, old(buckets), keys, now)
        decreases |keys|
      {
        var key :| key in keys;
        RemainingLess(config, old(buckets), keys, now, key);
        ReapAllMore(config, old(buckets), looks, Look(key, now(key)));
        looks := looks + [Look(key, now(key))];
        if now(key) - buckets[key].seen > config.ttl {
          buckets := buckets - {key};
        }
        keys := keys - {key};
      }
    }
  }
}
