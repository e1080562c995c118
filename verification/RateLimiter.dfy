/** The client side of doci/llm/ratelimit.py: the two scripts rewriting the shared hash in
    place, and the polling loop that waits for a grant. */
module RateLimiter {
  import opened Options
  import opened TokenBucket

  /** The request a caller's token count becomes: never negative, never above capacity. */
  function Clamp(tpm: int, tokens: int): int {
    if MaxInt(0, tokens) > tpm then tpm else MaxInt(0, tokens)
  }

  /** The hash at the bucket's key, with the deadline EXPIRE gave it. */
  class BucketHash {
    var present: bool
    var tokens: real
    var ts: real
    var deadline: real

    constructor ()
      ensures !present
    {
      present, tokens, ts, deadline := false, 0.0, 0.0, 0.0;
    }

    /** What HMGET finds at time `now`. */
    function Seen(now: real): Bucket
      reads this
    {
      if present && now < deadline then Present(tokens, ts) else Absent
    }

    function State(): Key
      reads this
    {
      Key(if present then Present(tokens, ts) else Absent, deadline)
    }

    /** Refill, then consume if available; answers the wait. */
    method AcquireScript(p: Params, requested: int, now: real) returns (waitMs: int)
      requires Usable(p)
      modifies this
      ensures var e := Event(now, Acquire(requested));
              State() == TouchKey(p, Key(old(Seen(now)), 0.0), e)
              && waitMs == Script(p, old(Seen(now)), e).1
    {
      var level := p.capacity;
      var since := now;
      if present && now < deadline { level, since := tokens, ts; }
      var elapsed := now - since;
      if elapsed < 0.0 { elapsed := 0.0; }
      level := Min(p.capacity, level + elapsed * p.rate);
      waitMs := 0;
      if level >= requested as real {
        level := level - requested as real;
      } else {
        waitMs := Ceil((requested as real - level) / p.rate * 1000.0);
      }
      present, tokens, ts, deadline := true, level, now, now + p.ttl;
    }

    /** Refill, then apply a signed delta, refunds stopping at the capacity. */
    method AdjustScript(p: Params, delta: int, now: real)
      requires Usable(p)
      modifies this
      ensures State() == TouchKey(p, Key(old(Seen(now)), 0.0), Event(now, Adjust(delta)))
    {
      var level := p.capacity;
      var since := now;
      if present && now < deadline { level, since := tokens, ts; }
      var elapsed := now - since;
      if elapsed < 0.0 { elapsed := 0.0; }
      level := Min(p.capacity, level + elapsed * p.rate) - delta as real;
      if level > p.capacity { level := p.capacity; }
      present, tokens, ts, deadline := true, level, now, now + p.ttl;
    }
  }

  /** `ghost` twin of the loop's progress: what the key holds is at least what an undisturbed
      bucket would hold, and exactly that when its expiry cannot show. */
  ghost predicate Tracks(p: Params, h: BucketHash, b: Bucket, now: real)
    reads h
  {
    && (forall u :: u >= now ==> Level(p, h.Seen(u), u) >= Level(p, b, u))
    && (Recovers(p, b) ==> forall u :: u >= now ==> Level(p, h.Seen(u), u) == Level(p, b, u))
  }

  lemma AbsentIsFull(p: Params, b: Bucket, u: real)
    ensures Level(p, b, u) <= Level(p, Absent, u) == p.capacity
  {}

  /** A refused script run keeps tracking. */
  lemma RefusalTracks(p: Params, b: Bucket, x: Bucket, now: real, u: real)
    requires Usable(p) && Started(b, now) && Started(x, now) && now <= u
    requires Level(p, x, now) >= Level(p, b, now)
    ensures Level(p, Present(Level(p, x, now), now), u) >= Level(p, b, u)
    ensures Level(p, x, now) == Level(p, b, now) ==>
              Level(p, Present(Level(p, x, now), now), u) == Level(p, b, u)
    ensures Recovers(p, b) && u >= now + p.ttl ==> Level(p, b, u) == p.capacity
  {
    RefillComposes(p, b, now, u);
    if Recovers(p, b) && u >= now + p.ttl && b.Present? { FullAfterTtl(p, b.tokens, b.ts, u); }
    GainTriangle(p, now, now, u);
    hide Gain;
  }

  /** Sleeping `d` seconds closes the gap by `rate * d` or fills the bucket. */
  lemma SleepGains(p: Params, level: real, now: real, d: real)
    requires Usable(p) && d >= 0.0 && level <= p.capacity
    ensures Level(p, Present(level, now), now + d) == Min(p.capacity, level + d * p.rate)
  {
    GainForward(p, now, now + d);
  }

  lemma StartTracks(p: Params, h: BucketHash, start: real)
    requires Usable(p) && Armed(p, h.State(), start)
    ensures Tracks(p, h, h.Seen(start), start) && Started(h.Seen(start), start)
  {
    var b := h.Seen(start);
    forall u | u >= start
      ensures Level(p, h.Seen(u), u) >= Level(p, b, u)
      ensures Recovers(p, b) ==> Level(p, h.Seen(u), u) == Level(p, b, u)
    {
      AbsentIsFull(p, b, u);
      if b.Present? && u >= h.deadline && Recovers(p, b) { FullAfterTtl(p, b.tokens, b.ts, u); }
      hide Level;
    }
  }

  lemma RefusalWaits(p: Params, x: Bucket, now: real, need: int)
    requires Usable(p) && need as real <= p.capacity && Level(p, x, now) < need as real
    ensures Script(p, x, Event(now, Acquire(need))).1 > 0
  {
    WaitExact(p, x, now, need, 0.0);
    hide Level;
  }

  /** After a refused poll and a sleep shorter than the TTL the key still holds what an
      undisturbed bucket would. */
  lemma RefusalKeeps(p: Params, h: BucketHash, b: Bucket, x: Bucket, need: int, now: real, delay: real)
    requires Usable(p) && Started(b, now) && Started(x, now) && 0.0 <= delay < p.ttl
    requires h.State() == TouchKey(p, Key(x, 0.0), Event(now, Acquire(need)))
    requires Level(p, x, now) < need as real && Level(p, x, now) == Level(p, b, now)
    ensures Level(p, h.Seen(now + delay), now + delay) == Level(p, b, now + delay)
  {
    RefusalTracks(p, b, x, now, now + delay);
    hide Level;
  }

  /** After a refused poll and the sleep that follows it. */
  lemma RefusalStep(p: Params, h: BucketHash, b: Bucket, x: Bucket, need: int, now: real, delay: real,
                    maxSleep: real, pause: real)
    requires Usable(p) && Started(b, now) && Started(x, now) && need as real <= p.capacity
    requires h.State() == TouchKey(p, Key(x, 0.0), Event(now, Acquire(need)))
    requires Level(p, x, now) < need as real && pause >= 0.0 && maxSleep > 0.0
    requires var wait := Script(p, x, Event(now, Acquire(need))).1 as real / 1000.0;
             delay == (if wait <= maxSleep then wait else maxSleep) + pause
    requires Level(p, x, now) >= Level(p, b, now)
    requires Recovers(p, b) ==> Level(p, x, now) == Level(p, b, now)
    ensures delay >= 0.0 && Tracks(p, h, b, now + delay) && Started(b, now + delay)
    ensures Level(p, h.Seen(now + delay), now + delay) >= need as real
         || need as real - Level(p, h.Seen(now + delay), now + delay)
            <= need as real - Level(p, x, now) - SleepGain(p, maxSleep)
  {
    var level := Level(p, x, now);
    assert h.present && h.tokens == level && h.ts == now && h.deadline == now + p.ttl;
    RefusalWaits(p, x, now, need);
    WaitExact(p, x, now, need, delay);
    forall u | u >= now
      ensures Level(p, h.Seen(u), u) >= Level(p, b, u)
      ensures Recovers(p, b) ==> Level(p, h.Seen(u), u) == Level(p, b, u)
    {
      AbsentIsFull(p, b, u);
      RefusalTracks(p, b, x, now, u);
      hide Level;
    }
    if Script(p, x, Event(now, Acquire(need))).1 as real / 1000.0 > maxSleep && now + delay < h.deadline {
      LevelCapped(p, x, now);
      SleepGains(p, level, now, delay);
      Scale(maxSleep, delay, p.rate);
      assert p.rate * maxSleep == maxSleep * p.rate;
    }
  }

  /** `polls` full sleeps have been taken off the initial gap, or nothing is missing. */
  predicate Closing(polls: int, m: real, gap: real, short: real) {
    short <= 0.0 || short <= gap - polls as real * m
  }

  lemma ClosingStart(m: real, gap: real)
    ensures Closing(0, m, gap, gap)
  {}

  lemma Closer(polls: int, m: real, gap: real, short: real, short': real)
    requires Closing(polls, m, gap, short) && short > 0.0
    requires short' <= 0.0 || short' <= short - m
    ensures Closing(polls + 1, m, gap, short')
  {
    assert (polls + 1) as real * m == polls as real * m + m;
  }

  lemma Archimedes(polls: int, bound: int, m: real, gap: real, short: real)
    requires m > 0.0 && bound as real * m >= gap && Closing(polls, m, gap, short) && short > 0.0
    ensures polls < bound
  {
    if polls >= bound { Scale(bound as real, polls as real, m); }
  }

  lemma TracksNow(p: Params, h: BucketHash, b: Bucket, now: real)
    requires Tracks(p, h, b, now) && (h.present ==> h.ts <= now)
    ensures Started(h.Seen(now), now)
    ensures Level(p, h.Seen(now), now) >= Level(p, b, now)
    ensures Recovers(p, b) ==> Level(p, h.Seen(now), now) == Level(p, b, now)
  {
    assert now >= now;
    hide Level;
  }

  lemma PollOutcome(p: Params, x: Bucket, now: real, need: int)
    requires Usable(p) && need as real <= p.capacity
    ensures var (b', wait) := Script(p, x, Event(now, Acquire(need)));
            && b'.Present? && b'.ts == now
            && (wait <= 0 ==> b'.tokens == Level(p, x, now) - need as real >= 0.0)
            && (wait > 0 ==> Level(p, x, now) < need as real)
  {
    WaitExact(p, x, now, need, 0.0);
    hide Level;
  }

  /** Tokens refilled by one full sleep. */
  function SleepGain(p: Params, maxSleep: real): real { p.rate * maxSleep }

  /** The gap over what one full sleep refills, rounded up, plus one. */
  function MaxPolls(p: Params, maxSleep: real, gap: real): int
    requires Usable(p) && maxSleep > 0.0
  {
    Ceil(gap / SleepGain(p, maxSleep)) + 1
  }

  lemma MaxPollsCover(p: Params, maxSleep: real, gap: real)
    requires Usable(p) && maxSleep > 0.0
    ensures SleepGain(p, maxSleep) > 0.0
    ensures (MaxPolls(p, maxSleep, gap) - 1) as real * SleepGain(p, maxSleep) >= gap
  {
    var m := SleepGain(p, maxSleep);
    CeilBounds(gap / m);
    Scale(gap / m, Ceil(gap / m) as real, m);
    assert gap / m * m == gap;
  }

  /** The bound is no looser than that: what all full sleeps but the last can refill is less
      than what was missing at the start. */
  lemma MaxPollsTight(p: Params, maxSleep: real, gap: real, polls: int)
    requires Usable(p) && maxSleep > 0.0 && polls <= MaxPolls(p, maxSleep, gap)
    ensures (polls - 2) as real * (p.rate * maxSleep) < gap
  {
    MaxPollsCover(p, maxSleep, gap);
    var m := SleepGain(p, maxSleep);
    UnderCeil(gap, m, polls - 2);
  }

  lemma UnderCeil(gap: real, m: real, n: int)
    requires m > 0.0 && n < Ceil(gap / m)
    ensures n as real * m < gap
  {
    var x := gap / m;
    assert x * m == gap;
    CeilBounds(x);
    assert n as real < x;
    assert (x - n as real) * m > 0.0;
  }

  lemma DefaultUsable(tpm: int, window: int)
    requires tpm > 0
    ensures Usable(DefaultParams(tpm, window)) && DefaultParams(tpm, window).capacity == tpm as real
  {}

  class RedisTokenBucket {
    const tpm: int
    const p: Params
    const maxSleep: real

    /** `ttl` overrides the derived TTL. */
    constructor (tpm: int, window: int, ttl: Option<int>, maxSleep: real)
      requires tpm > 0
      ensures this.tpm == tpm && this.maxSleep == maxSleep && Valid()
      ensures p == match ttl case None => DefaultParams(tpm, window)
                             case Some(t) => DefaultParams(tpm, window).(ttl := t as real)
      ensures p.capacity == tpm as real && p.rate * (if window > 1 then window else 1) as real == tpm as real
      ensures p.ttl == (if ttl.Some? then ttl.value else if window > 30 then 2 * window else 60) as real
    {
      this.tpm, this.maxSleep := tpm, maxSleep;
      var d := DefaultParams(tpm, window);
      this.p := match ttl case None => d case Some(t) => d.(ttl := t as real);
      DefaultUsable(tpm, window);
    }

    ghost predicate Valid() { Usable(p) && p.capacity == tpm as real }

    /** Tokens missing for the request when the caller starts. */
    ghost function Deficit(h: BucketHash, tokens: int, start: real): real
      reads h
    {
      Clamp(tpm, tokens) as real - Level(p, h.Seen(start), start)
    }

    /** Poll and sleep until granted.  `pause(i)` is what the i-th sleep adds to the computed
        delay: the random jitter and any latency, never negative.

        With no other worker on the key the loop ends after a number of polls bounded by the
        deficit over what one full sleep refills, rounded up, plus one.  However many polls
        were refused it consumes the request exactly once: as many tokens as were asked for,
        the whole capacity for a request that exceeds it, nothing for a negative one.  Only a level that the TTL does
        not refill, left alone by one sleep for the whole TTL, may be forgiven. */
    method Acquire(h: BucketHash, tokens: int, start: real, pause: nat -> real)
      returns (polls: int, done: real)
      requires Valid() && maxSleep > 0.0
      requires forall i :: pause(i) >= 0.0
      requires Armed(p, h.State(), start)
      modifies h
      ensures done >= start
      ensures old(Deficit(h, tokens, start)) <= 0.0 ==> polls == 1 && done == start
      ensures old(Deficit(h, tokens, start)) > 0.0 ==>
                1 <= polls <= MaxPolls(p, maxSleep, old(Deficit(h, tokens, start)))
      ensures h.present && h.ts == done && h.deadline == done + p.ttl && h.tokens >= 0.0
      ensures h.tokens >= Level(p, old(h.Seen(start)), done) - Clamp(tpm, tokens) as real
      ensures Recovers(p, old(h.Seen(start))) || (forall i :: maxSleep + pause(i) < p.ttl) ==>
                var taken := Level(p, old(h.Seen(start)), done) - h.tokens;
                taken == (if tokens >= tpm then tpm else if tokens >= 0 then tokens else 0) as real
    {
      hide Level, Gain, Script, Ceil, Tracks, Closing, Recovers, Started, Refuses, SleepGain, MaxPolls;
      var need := MaxInt(0, tokens);
      if need > tpm { need := tpm; }
      assert need == Clamp(tpm, tokens) && need as real <= p.capacity;
      assert need == if tokens >= tpm then tpm else if tokens >= 0 then tokens else 0;
      hide Clamp, MaxInt;
      ghost var b := h.Seen(start);
      ghost var gap := Deficit(h, tokens, start);
      ghost var m := SleepGain(p, maxSleep);
      ghost var bound := MaxPolls(p, maxSleep, gap) - 1;
      MaxPollsCover(p, maxSleep, gap);
      done := start;
      polls := 0;
      ClosingStart(m, gap);
      StartTracks(p, h, start);
      while true
        invariant polls >= 0 && done >= start && Started(b, done) && (h.present ==> h.ts <= done)
        invariant polls == 0 ==> done == start && h.Seen(start) == b
        invariant polls > 0 ==> 0.0 < gap && polls <= bound
        invariant Tracks(p, h, b, done)
        invariant (forall i :: maxSleep + pause(i) < p.ttl) ==> Level(p, h.Seen(done), done) == Level(p, b, done)
        invariant Closing(polls, m, gap, need as real - Level(p, h.Seen(done), done))
        decreases bound - polls + 1
      {
        ghost var x := h.Seen(done);
        TracksNow(p, h, b, done);
        var waitMs := h.AcquireScript(p, need, done);
        PollOutcome(p, x, done, need);
        polls := polls + 1;
        if waitMs <= 0 { return; }
        ghost var short := need as real - Level(p, x, done);
        Archimedes(polls - 1, bound, m, gap, short);
        var delay := (if waitMs as real / 1000.0 <= maxSleep then waitMs as real / 1000.0 else maxSleep)
                     + pause(polls - 1);
        RefusalStep(p, h, b, x, need, done, delay, maxSleep, pause(polls - 1));
        if forall i :: maxSleep + pause(i) < p.ttl {
          assert maxSleep + pause(polls - 1) < p.ttl;
          RefusalKeeps(p, h, b, x, need, done, delay);
        }
        done := done + delay;
        Closer(polls - 1, m, gap, short, need as real - Level(p, h.Seen(done), done));
      }
    }

    /** Reconcile actual against reserved; a zero delta sends no script. */
    method AdjustBy(h: BucketHash, delta: int, now: real)
      requires Valid()
      modifies h
      ensures delta == 0 ==> unchanged(h)
      ensures delta != 0 ==>
                h.State() == TouchKey(p, Key(old(h.Seen(now)), 0.0), Event(now, Adjust(delta)))
    {
      if delta == 0 { return; }
      h.AdjustScript(p, delta, now);
    }
  }
}
