/**
 What the limiter is for: over any schedule of calls a key gets at most its burst and what its rate
 yields in that time, and a key that keeps to its rate is never turned away.
 */
module RateBound {
  import opened RateLimiter

  /** How many calls of a key are allowed. */
  function Allowed(c: Config, m: Buckets, es: seq<Event>, key: string): nat
    decreases |es|
  {
    if es == [] then 0
    else (if es[0].Call? && es[0].key == key && Answer(c, m, es[0]) then 1 else 0) + Allowed(c, Keeping(c, m, es[0]), es[1..], key)
  }

  function TimeOf(e: Event): real { if e.Call? then e.at else e.now }

  /** Events in order of time from t on, none after the end. */
  predicate InTime(t: real, end: real, es: seq<Event>)
    decreases |es|
  {
    t <= end && (es == [] || (t <= TimeOf(es[0]) && InTime(TimeOf(es[0]), end, es[1..])))
  }

  /** A bucket is not overdrawn, and not ahead of time. */
  ghost predicate Sound(t: real, m: Buckets, key: string) {
    key in m ==> 0.0 <= m[key].bucket.tokens && m[key].bucket.last <= t
  }

  /** The tokens a key has at time t. */
  function Tokens(c: Config, m: Buckets, key: string, t: real): real {
    if key in m then Level(c, m[key].bucket, t) else c.burst as real
  }

  lemma {:induction false} GainNotNegative(c: Config, from: real, to: real)
    requires c.rps > 0.0 && from <= to
    ensures Gain(c, from, to) >= 0.0
  {
    Monotone(c.rps, 0.0, to - from);
  }

  lemma {:induction false} TokensNotNegative(c: Config, m: Buckets, key: string, t: real)
    requires c.rps > 0.0 && c.burst >= 1 && Sound(t, m, key)
    ensures Tokens(c, m, key, t) >= 0.0
  {
    if key in m {
      GainNotNegative(c, m[key].bucket.last, t);
    }
  }

  /** Waiting yields no more than the rate. */
  lemma {:induction false} TokensLater(c: Config, m: Buckets, key: string, t: real, t': real)
    requires c.rps > 0.0 && t <= t'
    ensures Tokens(c, m, key, t') <= Tokens(c, m, key, t) + Gain(c, t, t')
  {
    GainNotNegative(c, t, t');
    if key in m {
      GainAdds(c, m[key].bucket.last, t, t');
    }
  }

  /** A call that is allowed costs one token; any other event costs none. */
  lemma {:induction false} EventCosts(c: Config, m: Buckets, e: Event, key: string)
    requires c.rps > 0.0 && c.burst >= 1 && Sound(TimeOf(e), m, key)
    ensures var m', cost := Keeping(c, m, e), if e.Call? && e.key == key && Answer(c, m, e) then 1.0 else 0.0;
            Sound(TimeOf(e), m', key) && Tokens(c, m', key, TimeOf(e)) == Tokens(c, m, key, TimeOf(e)) - cost
  {
    if e.Call? && e.key == key {
      var b := BucketOf(c, m, key, e.at);
      LevelAtOnce(c, c.burst as real, e.at);
      if Allows(c, b, e.at) {
        SpendLowers(c, b, e.at);
      }
    }
  }

  lemma {:induction false} AllowedWithin(c: Config, m: Buckets, es: seq<Event>, key: string, t: real, end: real)
    requires c.rps > 0.0 && c.burst >= 1 && Sound(t, m, key) && InTime(t, end, es)
    ensures Allowed(c, m, es, key) as real <= Tokens(c, m, key, t) + Gain(c, t, end)
    decreases |es|
  {
    if es == [] {
      TokensNotNegative(c, m, key, t);
      GainNotNegative(c, t, end);
    } else {
      var e, at := es[0], TimeOf(es[0]);
      EventCosts(c, m, e, key);
      AllowedWithin(c, Keeping(c, m, e), es[1..], key, at, end);
      TokensLater(c, m, key, t, at);
      GainAdds(c, t, at, end);
    }
  }

  /** In any span of time, a new key gets at most its burst and the rate times that span. */
  lemma {:induction false} RateIsBounded(c: Config, es: seq<Event>, key: string, t: real, end: real)
    requires c.rps > 0.0 && c.burst >= 1 && InTime(t, end, es)
    ensures Allowed(c, map[], es, key) as real <= c.burst as real + c.rps * (end - t)
  {
    AllowedWithin(c, map[], es, key, t, end);
    assert Gain(c, t, end) == c.rps * (end - t);
  }

  /** Calls of one key, each at least the time of one token after the one before. */
  predicate AtRate(c: Config, key: string, t: real, es: seq<Event>)
    decreases |es|
  {
    es == [] || (&& es[0].Call? && es[0].key == key && t <= es[0].at && (es[0].at - t) * c.rps >= 1.0
                 && AtRate(c, key, es[0].at, es[1..]))
  }

  /** A key that keeps to the rate is never turned away, however much it has used before. */
  lemma {:induction false} SteadyCallsGoThrough(c: Config, m: Buckets, key: string, t: real, es: seq<Event>)
    requires c.rps > 0.0 && c.burst >= 1 && Sound(t, m, key) && AtRate(c, key, t, es)
    ensures AllTrue(KeepingAnswers(c, m, es))
    decreases |es|
  {
    if es != [] {
      var e := es[0];
      LevelAtOnce(c, c.burst as real, e.at);
      assert Gain(c, t, e.at) >= 1.0 && c.burst as real >= 1.0;
      if key in m {
        GainAdds(c, m[key].bucket.last, t, e.at);
        GainNotNegative(c, m[key].bucket.last, t);
      }
      assert Allows(c, BucketOf(c, m, key, e.at), e.at);
      assert Sound(e.at, m, key);
      EventCosts(c, m, e, key);
      SteadyCallsGoThrough(c, Keeping(c, m, e), key, e.at, es[1..]);
    }
  }

  /** A new key may use its whole burst at once, and not one call more. */
  lemma {:induction false} BurstExactly(c: Config, m: Buckets, key: string, at: real, n: nat)
    requires c.burst >= 1 && key !in m
    ensures AllTrue(ReapingAnswers(c, m, Burst(key, at, n))) <==> n <= c.burst
  {
    LevelAtOnce(c, c.burst as real, at);
    if n <= c.burst {
      BurstGoesThrough(c, m, key, at, n);
    } else {
      var e, rest := Call(key, at, at), Burst(key, at, n - 1);
      assert Burst(key, at, n)[0] == e && Burst(key, at, n)[1..] == rest;
      SpendLowers(c, Full(c, at), at);
      if AllTrue(ReapingAnswers(c, m, Burst(key, at, n))) {
        assert ReapingAnswers(c, m, Burst(key, at, n))[1..] == ReapingAnswers(c, Called(c, m, e), rest);
        BurstAnswersAlike(c, Called(c, m, e), key, at, n - 1);
        BurstNeedsTokens(c, Called(c, m, e), key, at, n - 1);
      }
    }
  }

  lemma {:induction false} BurstAnswersAlike(c: Config, m: Buckets, key: string, at: real, n: nat)
    ensures ReapingAnswers(c, m, Burst(key, at, n)) == KeepingAnswers(c, m, Burst(key, at, n))
    decreases n
  {
    if n > 0 {
      assert Burst(key, at, n)[0] == Call(key, at, at) && Burst(key, at, n)[1..] == Burst(key, at, n - 1);
      BurstAnswersAlike(c, Called(c, m, Call(key, at, at)), key, at, n - 1);
    }
  }
}
