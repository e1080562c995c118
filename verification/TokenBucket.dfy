/** The fleet-wide token bucket of doci/llm/ratelimit.py.

    The two Lua scripts are atomic, so any interleaving of workers is one sequence of
    script runs, each stamped with the server clock it read.  Tokens and seconds are
    reals: the rounding of doubles is not modelled. */
module TokenBucket {

  /** `rate` tokens a second up to `capacity`; `ttl` seconds of idleness drop the key. */
  datatype Params = Params(rate: real, capacity: real, ttl: real)

  predicate Usable(p: Params) { p.rate > 0.0 && p.capacity >= 0.0 }

  /** The hash at the bucket's key. */
  datatype Bucket = Absent | Present(tokens: real, ts: real)

  datatype Op = Acquire(need: int) | Adjust(delta: int)

  /** One script run at server time `at`. */
  datatype Event = Event(at: real, op: Op)

  function Min(a: real, b: real): real { if a <= b then a else b }

  function Ceil(x: real): int { -((-x).Floor) }

  /** A clock that steps back refills nothing. */
  function Elapsed(ts: real, now: real): real { if now < ts then 0.0 else now - ts }

  /** Tokens accrued from `ts` to `now`. */
  function Gain(p: Params, ts: real, now: real): real { Elapsed(ts, now) * p.rate }

  /** Tokens the scripts find at time `now`: lazily refilled, a missing key is full. */
  function Level(p: Params, b: Bucket, now: real): real {
    match b
    case Absent => p.capacity
    case Present(tokens, ts) => Min(p.capacity, tokens + Gain(p, ts, now))
  }

  /** The scripts: the rewritten hash and the number returned (0 for a grant, the wait in
      milliseconds for a refusal, 1 from adjust). */
  function Script(p: Params, b: Bucket, e: Event): (Bucket, int)
    requires Usable(p)
  {
    var level := Level(p, b, e.at);
    match e.op
    case Acquire(need) =>
      if level >= need as real then (Present(level - need as real, e.at), 0)
      else (Present(level, e.at), Ceil((need as real - level) / p.rate * 1000.0))
    case Adjust(delta) => (Present(Min(p.capacity, level - delta as real), e.at), 1)
  }

  predicate Grants(p: Params, b: Bucket, e: Event) {
    e.op.Acquire? && Level(p, b, e.at) >= e.op.need as real
  }

  predicate Refuses(p: Params, b: Bucket, e: Event) {
    e.op.Acquire? && Level(p, b, e.at) < e.op.need as real
  }

  /** Tokens the fleet spends by one script run, refunds counted negative. */
  function Charge(p: Params, b: Bucket, e: Event): int {
    match e.op
    case Acquire(need) => if Grants(p, b, e) then need else 0
    case Adjust(delta) => delta
  }

  // ------------------------------------------------------------------ runs

  function After(p: Params, b: Bucket, run: seq<Event>): Bucket
    requires Usable(p)
  {
    if run == [] then b
    else Script(p, After(p, b, run[..|run| - 1]), run[|run| - 1]).0
  }

  function Replies(p: Params, b: Bucket, run: seq<Event>): (r: seq<int>)
    requires Usable(p)
    ensures |r| == |run|
  {
    if run == [] then []
    else Replies(p, b, run[..|run| - 1])
         + [Script(p, After(p, b, run[..|run| - 1]), run[|run| - 1]).1]
  }

  function Charges(p: Params, b: Bucket, run: seq<Event>): int
    requires Usable(p)
  {
    if run == [] then 0
    else Charges(p, b, run[..|run| - 1])
         + Charge(p, After(p, b, run[..|run| - 1]), run[|run| - 1])
  }

  function Last(t0: real, run: seq<Event>): real {
    if run == [] then t0 else run[|run| - 1].at
  }

  /** The refill of the clock's forward motion over the run; steps back add nothing. */
  function Accrued(p: Params, t0: real, run: seq<Event>): real {
    if run == [] then 0.0
    else Accrued(p, t0, run[..|run| - 1]) + Gain(p, Last(t0, run[..|run| - 1]), run[|run| - 1].at)
  }

  predicate Monotone(t0: real, run: seq<Event>) {
    run == [] || (Last(t0, run[..|run| - 1]) <= run[|run| - 1].at && Monotone(t0, run[..|run| - 1]))
  }

  // -------------------------------------------------------- the budget bound

  lemma Product(a: real, r: real)
    requires a >= 0.0 && r > 0.0
    ensures a * r >= 0.0
  {}

  lemma Scale(a: real, b: real, r: real)
    requires a <= b && r > 0.0
    ensures a * r <= b * r
  {
    Product(b - a, r);
    assert b * r == a * r + (b - a) * r;
  }

  lemma GainTriangle(p: Params, s: real, t: real, u: real)
    requires Usable(p)
    ensures Gain(p, t, u) >= 0.0 && Gain(p, s, u) <= Gain(p, s, t) + Gain(p, t, u)
    ensures s <= t <= u ==> Gain(p, s, u) == Gain(p, s, t) + Gain(p, t, u)
    ensures Gain(p, t, t) == 0.0
  {
    Product(Elapsed(t, u), p.rate);
    Scale(Elapsed(s, u), Elapsed(s, t) + Elapsed(t, u), p.rate);
    assert (Elapsed(s, t) + Elapsed(t, u)) * p.rate == Gain(p, s, t) + Gain(p, t, u);
  }

  lemma StepBound(p: Params, b: Bucket, t: real, e: Event)
    requires Usable(p)
    ensures Level(p, Script(p, b, e).0, e.at)
         <= Level(p, b, t) + Gain(p, t, e.at) - Charge(p, b, e) as real
    ensures Grants(p, b, e) ==> Level(p, Script(p, b, e).0, e.at) >= 0.0
  {
    GainTriangle(p, if b.Present? then b.ts else t, t, e.at);
    GainTriangle(p, t, e.at, e.at);
    hide Gain;
  }

  /** Whatever the clock does, spending is covered by what the bucket held and accrued. */
  lemma {:induction false} LevelBound(p: Params, b: Bucket, t0: real, run: seq<Event>)
    requires Usable(p)
    ensures Level(p, After(p, b, run), Last(t0, run))
         <= Level(p, b, t0) + Accrued(p, t0, run) - Charges(p, b, run) as real
  {
    hide Gain, Level, Script, Charge;
    if run != [] {
      var pre, e := run[..|run| - 1], run[|run| - 1];
      LevelBound(p, b, t0, pre);
      StepBound(p, After(p, b, pre), Last(t0, pre), e);
    }
  }

  lemma {:induction false} AccruedIsElapsed(p: Params, t0: real, run: seq<Event>)
    requires Usable(p) && Monotone(t0, run)
    ensures t0 <= Last(t0, run) && Accrued(p, t0, run) == Gain(p, t0, Last(t0, run))
  {
    hide Gain;
    GainTriangle(p, t0, t0, t0);
    if run != [] {
      AccruedIsElapsed(p, t0, run[..|run| - 1]);
      GainTriangle(p, t0, Last(t0, run[..|run| - 1]), run[|run| - 1].at);
    }
  }

  lemma LevelCapped(p: Params, b: Bucket, t: real)
    ensures Level(p, b, t) <= p.capacity
  {}

  lemma GainForward(p: Params, t: real, u: real)
    requires t <= u
    ensures Gain(p, t, u) == (u - t) * p.rate
  {}

  /** From any observed state to any later grant, the grants plus the signed adjustments
      stay within one capacity plus what the clock's forward motion refilled, even though
      adjust can push the level below zero in between. */
  lemma Budget(p: Params, b: Bucket, t0: real, run: seq<Event>, grant: Event)
    requires Usable(p) && Grants(p, After(p, b, run), grant)
    ensures Charges(p, b, run + [grant]) as real <= p.capacity + Accrued(p, t0, run + [grant])
  {
    hide Gain, Level, Script, Charge, Grants;
    var all := run + [grant];
    assert all[..|all| - 1] == run;
    LevelBound(p, b, t0, all);
    StepBound(p, After(p, b, run), grant.at, grant);
    LevelCapped(p, b, t0);
  }

  /** With a clock that never steps back the refill is rate times the elapsed time. */
  lemma BudgetOverTime(p: Params, b: Bucket, t0: real, run: seq<Event>, grant: Event)
    requires Usable(p) && Grants(p, After(p, b, run), grant) && Monotone(t0, run + [grant])
    ensures Charges(p, b, run + [grant]) as real <= p.capacity + (grant.at - t0) * p.rate
  {
    hide Grants, After, Charges;
    Budget(p, b, t0, run, grant);
    AccruedIsElapsed(p, t0, run + [grant]);
    GainForward(p, t0, grant.at);
    hide *;
  }

  /** A clock stepping back and forth does refill twice: the bound is about forward motion. */
  lemma ClockStepRefillsTwice()
    ensures var p := Params(1.0, 10.0, 60.0);
            var b1 := Script(p, Absent, Event(0.0, Acquire(10))).0;
            var b2 := Script(p, b1, Event(10.0, Acquire(10))).0;
            var b3 := Script(p, b2, Event(0.0, Acquire(0))).0;
            && Grants(p, Absent, Event(0.0, Acquire(10))) && Grants(p, b1, Event(10.0, Acquire(10)))
            && Grants(p, b3, Event(10.0, Acquire(10)))
            && 30.0 > p.capacity + (10.0 - 0.0) * p.rate
  {}

  // ----------------------------------------------- refused polls leave no trace

  /** Indistinguishable by any script run at or after `t`. */
  ghost predicate Same(p: Params, b: Bucket, c: Bucket, t: real) {
    forall u :: u >= t ==> Level(p, b, u) == Level(p, c, u)
  }

  predicate Started(b: Bucket, t: real) { b.Present? ==> b.ts <= t }

  /** Two refills compose through the cap. */
  lemma RefillComposes(p: Params, b: Bucket, t: real, u: real)
    requires Usable(p) && Started(b, t) && t <= u
    ensures Level(p, Present(Level(p, b, t), t), u) == Level(p, b, u)
  {
    Product(u - t, p.rate);
    if b.Present? {
      assert (u - b.ts) * p.rate == (t - b.ts) * p.rate + (u - t) * p.rate;
    }
  }

  lemma KeptSnoc<T>(run: seq<T>, keep: seq<bool>, x: T, k: bool)
    requires |run| == |keep|
    ensures Kept(run + [x], keep + [k]) == Kept(run, keep) + if k then [x] else []
  {
    assert (run + [x])[..|run|] == run && (keep + [k])[..|run|] == keep;
  }

  lemma SameSelf(p: Params, b: Bucket, t: real)
    ensures Same(p, b, b, t)
  {}

  lemma SameScript(p: Params, b: Bucket, c: Bucket, t: real, e: Event)
    requires Usable(p) && Same(p, b, c, t) && t <= e.at
    ensures Script(p, b, e) == Script(p, c, e)
    ensures Same(p, Script(p, b, e).0, Script(p, c, e).0, e.at) && Started(Script(p, c, e).0, e.at)
  {
    assert Level(p, b, e.at) == Level(p, c, e.at);
    hide Level;
  }

  lemma RefusalSame(p: Params, b: Bucket, c: Bucket, t: real, e: Event)
    requires Usable(p) && Same(p, b, c, t) && Started(c, t) && t <= e.at && Refuses(p, b, e)
    ensures Same(p, Script(p, b, e).0, c, e.at) && Started(c, e.at)
  {
    assert Level(p, b, e.at) == Level(p, c, e.at);
    forall u | u >= e.at
      ensures Level(p, Script(p, b, e).0, u) == Level(p, c, u)
    {
      RefillComposes(p, c, e.at, u);
    }
    hide Level;
  }

  /** The sub-run (or the answers) that `keep` selects. */
  function Kept<T>(run: seq<T>, keep: seq<bool>): seq<T>
    requires |run| == |keep|
  {
    if run == [] then []
    else Kept(run[..|run| - 1], keep[..|run| - 1])
         + if keep[|run| - 1] then [run[|run| - 1]] else []
  }

  /** Only acquires that the run itself refused are dropped. */
  predicate DropsOnlyRefusals(p: Params, b: Bucket, run: seq<Event>, keep: seq<bool>)
    requires Usable(p) && |run| == |keep|
  {
    run == []
    || (DropsOnlyRefusals(p, b, run[..|run| - 1], keep[..|run| - 1])
        && (keep[|run| - 1] || Refuses(p, After(p, b, run[..|run| - 1]), run[|run| - 1])))
  }

  lemma RunSnoc(p: Params, b: Bucket, run: seq<Event>, e: Event)
    requires Usable(p)
    ensures After(p, b, run + [e]) == Script(p, After(p, b, run), e).0
    ensures Replies(p, b, run + [e]) == Replies(p, b, run) + [Script(p, After(p, b, run), e).1]
  {
    assert (run + [e])[..|run|] == run;
  }

  /** One more event after a run and its thinned copy that agree so far. */
  lemma TransparentStep(p: Params, b: Bucket, t: real, run: seq<Event>, thin: seq<Event>, e: Event, k: bool)
    requires Usable(p) && t <= e.at
    requires Same(p, After(p, b, run), After(p, b, thin), t) && Started(After(p, b, thin), t)
    requires k || Refuses(p, After(p, b, run), e)
    ensures var thin' := thin + if k then [e] else [];
            && Replies(p, b, thin') == Replies(p, b, thin) + (if k then [Script(p, After(p, b, run), e).1] else [])
            && Same(p, After(p, b, run + [e]), After(p, b, thin'), e.at)
            && Started(After(p, b, thin'), e.at)
  {
    RunSnoc(p, b, run, e);
    RunSnoc(p, b, thin, e);
    var c, d := After(p, b, run), After(p, b, thin);
    hide *;
    if k {
      SameScript(p, c, d, t, e);
    } else {
      assert thin + [] == thin;
      RefusalSame(p, c, d, t, e);
    }
  }

  /** Deleting any set of refused polls changes no other answer and no later level. */
  lemma {:induction false} RefusedPollsTransparent(p: Params, b: Bucket, t0: real, run: seq<Event>, keep: seq<bool>)
    requires Usable(p) && Started(b, t0) && Monotone(t0, run)
    requires |run| == |keep| && DropsOnlyRefusals(p, b, run, keep)
    ensures Replies(p, b, Kept(run, keep)) == Kept(Replies(p, b, run), keep)
    ensures Same(p, After(p, b, run), After(p, b, Kept(run, keep)), Last(t0, run))
    ensures Started(After(p, b, Kept(run, keep)), Last(t0, run))
  {
    hide Level, Gain, Same, Refuses, Script, Started;
    if run == [] {
      SameSelf(p, b, t0);
    } else {
      var n := |run| - 1;
      var pre, e, kp := run[..n], run[n], keep[..n];
      RefusedPollsTransparent(p, b, t0, pre, kp);
      assert pre + [e] == run && kp + [keep[n]] == keep;
      hide Replies, After, Kept, Monotone, DropsOnlyRefusals, Last;
      TransparentStep(p, b, Last(t0, pre), pre, Kept(pre, kp), e, keep[n]);
      KeptSnoc(pre, kp, e, keep[n]);
      KeptSnoc(Replies(p, b, pre), kp, Script(p, After(p, b, pre), e).1, keep[n]);
      RunSnoc(p, b, pre, e);
    }
  }

  // ---------------------------------------------------------------- expiry

  /** The key with its deadline: each script run re-arms it to `at + ttl`. */
  datatype Key = Key(bucket: Bucket, deadline: real)

  /** A script run, or the server dropping the key at some moment past its deadline. */
  datatype KeyStep = Touch(e: Event) | Vanish(when: real)

  function StepTime(s: KeyStep): real { match s case Touch(e) => e.at case Vanish(w) => w }

  function TouchKey(p: Params, k: Key, e: Event): Key
    requires Usable(p)
  { Key(Script(p, k.bucket, e).0, e.at + p.ttl) }

  function AfterKey(p: Params, k: Key, steps: seq<KeyStep>): Key
    requires Usable(p)
  {
    if steps == [] then k
    else
      var before := AfterKey(p, k, steps[..|steps| - 1]);
      match steps[|steps| - 1]
      case Touch(e) => TouchKey(p, before, e)
      case Vanish(_) => Key(Absent, before.deadline)
  }

  function KeyReplies(p: Params, k: Key, steps: seq<KeyStep>): seq<int>
    requires Usable(p)
  {
    if steps == [] then []
    else
      var pre := steps[..|steps| - 1];
      KeyReplies(p, k, pre) + match steps[|steps| - 1]
        case Touch(e) => [Script(p, AfterKey(p, k, pre).bucket, e).1]
        case Vanish(_) => []
  }

  /** The same script runs against a key that never expires. */
  function Touches(steps: seq<KeyStep>): seq<Event> {
    if steps == [] then []
    else Touches(steps[..|steps| - 1])
         + match steps[|steps| - 1] case Touch(e) => [e] case Vanish(_) => []
  }

  function LastStep(t0: real, steps: seq<KeyStep>): real {
    if steps == [] then t0 else StepTime(steps[|steps| - 1])
  }

  /** The level from which one `ttl` of idleness refills to full. */
  predicate Recovers(p: Params, b: Bucket) {
    b.Present? ==> b.tokens >= p.capacity - p.rate * p.ttl
  }

  /** A possible history of the key: the clock never steps back, the key vanishes only past
      its deadline, and only from a level that the `ttl` of idleness behind it has refilled.
      Below that level the key may be polled and re-armed at will. */
  predicate KeyRun(p: Params, k: Key, t0: real, steps: seq<KeyStep>)
    requires Usable(p)
  {
    steps == []
    || (var pre, s := steps[..|steps| - 1], steps[|steps| - 1];
        && KeyRun(p, k, t0, pre)
        && LastStep(t0, pre) <= StepTime(s)
        && (s.Vanish? ==> AfterKey(p, k, pre).deadline <= s.when && Recovers(p, AfterKey(p, k, pre).bucket)))
  }

  predicate Armed(p: Params, k: Key, t: real) {
    k.bucket.Present? ==> k.deadline == k.bucket.ts + p.ttl && k.bucket.ts <= t
  }

  lemma FullAfterTtl(p: Params, tokens: real, ts: real, u: real)
    requires Usable(p) && u >= ts && u >= ts + p.ttl
    requires tokens >= p.capacity - p.rate * p.ttl
    ensures Level(p, Present(tokens, ts), u) == p.capacity
  {
    Scale(p.ttl, u - ts, p.rate);
    assert p.rate * p.ttl == p.ttl * p.rate;
  }

  /** Every history of the expiring key answers exactly like a key that never expires. */
  lemma {:induction false} ExpiryInvisible(p: Params, k: Key, t0: real, steps: seq<KeyStep>)
    requires Usable(p) && Armed(p, k, t0) && KeyRun(p, k, t0, steps)
    ensures KeyReplies(p, k, steps) == Replies(p, k.bucket, Touches(steps))
    ensures Same(p, AfterKey(p, k, steps).bucket, After(p, k.bucket, Touches(steps)), LastStep(t0, steps))
    ensures Armed(p, AfterKey(p, k, steps), LastStep(t0, steps))
  {
    hide Level, Gain, Same, Script;
    if steps == [] {
      SameSelf(p, k.bucket, t0);
    } else {
      var pre, s := steps[..|steps| - 1], steps[|steps| - 1];
      ExpiryInvisible(p, k, t0, pre);
      var x, c := AfterKey(p, k, pre), After(p, k.bucket, Touches(pre));
      var t := LastStep(t0, pre);
      match s {
        case Touch(e) =>
          assert Touches(steps)[..|Touches(steps)| - 1] == Touches(pre);
          SameScript(p, x.bucket, c, t, e);
          ScriptStamps(p, x.bucket, e);
        case Vanish(w) =>
          assert Touches(steps) == Touches(pre);
          VanishSame(p, x, c, t, w);
      }
    }
  }

  lemma ScriptStamps(p: Params, b: Bucket, e: Event)
    requires Usable(p)
    ensures Script(p, b, e).0.Present? && Script(p, b, e).0.ts == e.at
  {}

  lemma VanishSame(p: Params, x: Key, c: Bucket, t: real, w: real)
    requires Usable(p) && Armed(p, x, t) && Recovers(p, x.bucket) && Same(p, x.bucket, c, t)
    requires t <= w && x.deadline <= w
    ensures Same(p, Absent, c, w)
  {
    forall u | u >= w
      ensures Level(p, c, u) == p.capacity
    {
      assert Level(p, x.bucket, u) == Level(p, c, u);
      if x.bucket.Present? { FullAfterTtl(p, x.bucket.tokens, x.bucket.ts, u); }
    }
  }

  /** For one key the condition is exact: dropping it at its deadline goes unnoticed for
      ever if and only if the level it held was within `rate * ttl` of full. */
  lemma ExpiryInvisibleIff(p: Params, tokens: real, ts: real)
    requires Usable(p) && p.ttl >= 0.0
    ensures Same(p, Absent, Present(tokens, ts), ts + p.ttl) <==> Recovers(p, Present(tokens, ts))
  {
    var b := Present(tokens, ts);
    if Recovers(p, b) {
      forall u | u >= ts + p.ttl ensures Level(p, b, u) == p.capacity { FullAfterTtl(p, tokens, ts, u); }
    } else {
      assert Level(p, b, ts + p.ttl) == tokens + p.ttl * p.rate;
      assert Level(p, Absent, ts + p.ttl) != Level(p, b, ts + p.ttl);
    }
  }

  /** The fleet bound survives expiry: from any state of the key to any later grant. */
  lemma ExpiringBudget(p: Params, k: Key, t0: real, steps: seq<KeyStep>, grant: Event)
    requires Usable(p) && Armed(p, k, t0) && KeyRun(p, k, t0, steps)
    requires Grants(p, AfterKey(p, k, steps).bucket, grant)
    requires LastStep(t0, steps) <= grant.at
    ensures Charges(p, k.bucket, Touches(steps) + [grant]) as real
         <= p.capacity + (grant.at - t0) * p.rate
  {
    hide *;
    var run := Touches(steps);
    ExpiryInvisible(p, k, t0, steps);
    SameGrants(p, AfterKey(p, k, steps).bucket, After(p, k.bucket, run), LastStep(t0, steps), grant);
    TouchesMonotone(p, k, t0, steps);
    MonotoneSnoc(t0, run, grant);
    BudgetOverTime(p, k.bucket, t0, run, grant);
  }

  lemma SameGrants(p: Params, b: Bucket, c: Bucket, t: real, e: Event)
    requires Same(p, b, c, t) && t <= e.at && Grants(p, b, e)
    ensures Grants(p, c, e)
  {
    hide Level;
  }

  lemma MonotoneSnoc(t0: real, run: seq<Event>, e: Event)
    requires Monotone(t0, run) && Last(t0, run) <= e.at
    ensures Monotone(t0, run + [e])
  {
    assert (run + [e])[..|run|] == run;
  }

  lemma {:induction false} TouchesMonotone(p: Params, k: Key, t0: real, steps: seq<KeyStep>)
    requires Usable(p) && KeyRun(p, k, t0, steps)
    ensures Monotone(t0, Touches(steps)) && Last(t0, Touches(steps)) <= LastStep(t0, steps)
  {
    if steps != [] {
      var pre := steps[..|steps| - 1];
      TouchesMonotone(p, k, t0, pre);
      if steps[|steps| - 1].Touch? {
        assert Touches(steps)[..|Touches(steps)| - 1] == Touches(pre);
      } else {
        assert Touches(steps) == Touches(pre);
      }
    }
  }

  // ------------------------------------------------------- default parameters

  function MaxInt(a: int, b: int): int { if a >= b then a else b }

  /** `RedisTokenBucket.__init__` with the default TTL. */
  function DefaultParams(tpm: int, window: int): Params {
    Params(tpm as real / MaxInt(1, window) as real, tpm as real, MaxInt(window * 2, 60) as real)
  }

  /** The default TTL outlasts two full refills, so every level from minus one capacity up
      recovers within it. */
  lemma DefaultTtlRecovers(tpm: int, window: int, b: Bucket)
    requires tpm > 0
    ensures var p := DefaultParams(tpm, window);
            Usable(p) && p.rate * p.ttl >= 2.0 * p.capacity
            && (b.Present? && b.tokens >= -p.capacity ==> Recovers(p, b))
  {
    var p := DefaultParams(tpm, window);
    var w := MaxInt(1, window) as real;
    assert p.ttl >= 2.0 * w;
    assert p.rate * w == tpm as real;
    Scale(2.0 * w, p.ttl, p.rate);
    assert (2.0 * w) * p.rate == 2.0 * (p.rate * w);
    var refill := p.ttl * p.rate;
    assert refill == p.rate * p.ttl;
    RefillRecovers(p, refill, b);
  }

  lemma RefillRecovers(p: Params, refill: real, b: Bucket)
    requires refill == p.rate * p.ttl && refill >= 2.0 * p.capacity
    ensures b.Present? && b.tokens >= -p.capacity ==> Recovers(p, b)
  {}

  /** Below that the promise fails: a call reporting three capacities leaves a level that two
      idle minutes do not refill, and the key's expiry grants what it still owed. */
  lemma DeepDebtForgotten()
    ensures var p := DefaultParams(100, 60);
            var debt := Script(p, Absent, Event(0.0, Adjust(300))).0;
            debt == Present(-200.0, 0.0) && !Recovers(p, debt)
            && Refuses(p, debt, Event(120.0, Acquire(100)))
            && Grants(p, Absent, Event(120.0, Acquire(100)))
  {
    var p := DefaultParams(100, 60);
    assert p.rate * 120.0 == 200.0;
    assert 120.0 * p.rate == 200.0;
  }

  // --------------------------------------------------------- the wait answer

  lemma CeilBounds(x: real)
    ensures Ceil(x) as real - 1.0 < x <= Ceil(x) as real
  {}

  lemma WaitBounds(p: Params, gap: real, wait: int)
    requires Usable(p) && wait == Ceil(gap / p.rate * 1000.0)
    ensures (wait as real - 1.0) / 1000.0 * p.rate < gap <= wait as real / 1000.0 * p.rate
  {
    var x := gap / p.rate;
    assert x * p.rate == gap;
    CeilBounds(x * 1000.0);
    Scale(x, wait as real / 1000.0, p.rate);
    var slack := x - (wait as real - 1.0) / 1000.0;
    assert slack > 0.0;
    assert slack * p.rate > 0.0;
    assert slack * p.rate == x * p.rate - (wait as real - 1.0) / 1000.0 * p.rate;
  }

  /** `wait_ms` is 0 exactly on a grant; nothing else touching the bucket, a retry `d` seconds
      later is granted once `d` reaches the wait and refused up to a millisecond before it. */
  lemma WaitExact(p: Params, b: Bucket, at: real, need: int, d: real)
    requires Usable(p) && need as real <= p.capacity && d >= 0.0
    ensures var (b', wait) := Script(p, b, Event(at, Acquire(need)));
            && (wait == 0 <==> Grants(p, b, Event(at, Acquire(need))))
            && (wait != 0 ==> wait > 0)
            && (wait > 0 && d >= wait as real / 1000.0 ==> Grants(p, b', Event(at + d, Acquire(need))))
            && (wait > 0 && d <= (wait - 1) as real / 1000.0 ==> Refuses(p, b', Event(at + d, Acquire(need))))
  {
    var (b', wait) := Script(p, b, Event(at, Acquire(need)));
    GainForward(p, at, at + d);
    hide Gain;
    if !Grants(p, b, Event(at, Acquire(need))) {
      var gap := need as real - Level(p, b, at);
      WaitDecides(p, gap, wait, d);
    }
  }

  lemma NotPositive(x: real, rate: real)
    requires rate > 0.0
    ensures x <= 0.0 ==> x * rate <= 0.0
  {
    if x <= 0.0 { Scale(x, 0.0, rate); }
  }

  lemma WaitDecides(p: Params, gap: real, wait: int, d: real)
    requires Usable(p) && wait == Ceil(gap / p.rate * 1000.0) && gap > 0.0
    ensures wait > 0
    ensures d >= wait as real / 1000.0 ==> d * p.rate >= gap
    ensures d <= (wait - 1) as real / 1000.0 ==> d * p.rate < gap
  {
    WaitBounds(p, gap, wait);
    NotPositive(wait as real / 1000.0, p.rate);
    if d >= wait as real / 1000.0 { Scale(wait as real / 1000.0, d, p.rate); }
    if d <= (wait - 1) as real / 1000.0 { Scale(d, (wait as real - 1.0) / 1000.0, p.rate); }
  }
}
