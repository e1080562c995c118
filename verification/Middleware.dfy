/** The reserve-then-reconcile accounting of doci/agents/ratelimit.py, for any number of
    model calls in flight against one bucket. */
module Middleware {
  import opened Options
  import opened RateLimiter
  import opened TokenBucket

  /** A response message's `usage_metadata`: absent (or empty), or carrying `total_tokens`. */
  datatype Usage = NoUsage | Usage(total: Option<int>)

  /** The message reports a usable (non-zero) total. */
  predicate Reports(u: Usage) { u.Usage? && u.total.Some? && u.total.value != 0 }

  /** The total reported by the last message that reports one. */
  function LastTotal(messages: seq<Usage>): Option<int> {
    if messages == [] then None
    else if Reports(messages[|messages| - 1]) then messages[|messages| - 1].total
    else LastTotal(messages[..|messages| - 1])
  }

  /** `_actual_total_tokens`: scan the messages from the newest back. */
  method ActualTotalTokens(messages: seq<Usage>) returns (r: Option<int>)
    ensures r.None? <==> forall i | 0 <= i < |messages| :: !Reports(messages[i])
    ensures r.Some? ==> exists i | 0 <= i < |messages| ::
              messages[i] == Usage(r) && forall j | i <= j < |messages| :: Reports(messages[j]) <==> j == i
    ensures r == LastTotal(messages)
  {
    var i := |messages|;
    assert messages[..i] == messages;
    while i > 0
      invariant 0 <= i <= |messages|
      invariant forall j | i <= j < |messages| :: !Reports(messages[j])
      invariant LastTotal(messages[..i]) == LastTotal(messages)
    {
      i := i - 1;
      assert messages[..i + 1][..i] == messages[..i];
      match messages[i] {
        case NoUsage =>
        case Usage(total) => if total.Some? && total.value != 0 { return total; }
      }
    }
    return None;
  }

  // ------------------------------------------------------------ the machine

  /** A begun call: its estimate, and what became of it. */
  datatype Call =
    | Running(estimate: nat)
    | Reported(estimate: nat, actual: int)
    | Unreported(estimate: nat)

  datatype Step =
    | Poll(at: real, estimate: nat)                     // one acquire script run of a caller
    | Finish(at: real, call: nat, messages: seq<Usage>) // the model answered; reconcile
    | Fail(call: nat)                                   // the handler raised; nothing is returned
    | Lapse(at: real)                                   // the key's TTL ran out

  /** The bucket, its key's deadline, the clock, the calls begun so far, and the books: tokens
      charged, refill lost against a full bucket, refund cut off at the capacity, and what was
      still missing when the key vanished. */
  datatype State = State(b: Bucket, deadline: real, now: real, calls: seq<Call>, charged: int,
                         spilled: real, cut: real, forgiven: real)

  function Above(x: real, cap: real): real { if x > cap then x - cap else 0.0 }

  function RunScript(p: Params, s: State, e: Event): State
    requires Usable(p)
  {
    var held := Level(p, s.b, s.now) + Gain(p, s.now, e.at);
    s.(b := Script(p, s.b, e).0,
       deadline := e.at + p.ttl,
       now := e.at,
       charged := s.charged + Charge(p, s.b, e),
       spilled := s.spilled + Above(held, p.capacity),
       cut := s.cut + if e.op.Adjust? then Above(Level(p, s.b, e.at) - e.op.delta as real, p.capacity) else 0.0)
  }

  predicate Enabled(s: State, step: Step) {
    match step
    case Poll(at, _) => s.now <= at
    case Finish(at, call, _) => s.now <= at && call < |s.calls| && s.calls[call].Running?
    case Fail(call) => call < |s.calls| && s.calls[call].Running?
    case Lapse(at) => s.now <= at && s.deadline <= at && s.b.Present?
  }

  function Next(p: Params, tpm: int, s: State, step: Step): State
    requires Usable(p) && Enabled(s, step)
  {
    match step
    case Poll(at, estimate) =>
      var e := Event(at, Acquire(Clamp(tpm, estimate)));
      var s' := RunScript(p, s, e);
      if Grants(p, s.b, e) then s'.(calls := s.calls + [Running(estimate)]) else s'
    case Finish(at, call, messages) =>
      var estimate := s.calls[call].estimate;
      (match LastTotal(messages)
       case None => s.(calls := s.calls[call := Unreported(estimate)])
       case Some(actual) =>
         var s' := if actual == estimate then s else RunScript(p, s, Event(at, Adjust(actual - estimate)));
         s'.(calls := s.calls[call := Reported(estimate, actual)]))
    case Fail(call) => s.(calls := s.calls[call := Unreported(s.calls[call].estimate)])
    case Lapse(at) =>
      var held := Level(p, s.b, s.now) + Gain(p, s.now, at);
      s.(b := Absent, now := at, spilled := s.spilled + Above(held, p.capacity),
         forgiven := s.forgiven + p.capacity - Level(p, s.b, at))
  }

  function Initial(t0: real): State { State(Absent, t0, t0, [], 0, 0.0, 0.0, 0.0) }

  /** `trace` is a history of the fleet: it starts with a full bucket and no call. */
  predicate History(p: Params, tpm: int, t0: real, steps: seq<Step>, trace: seq<State>)
    requires Usable(p)
  {
    && |trace| == |steps| + 1 && trace[0] == Initial(t0)
    && forall i | 0 <= i < |steps| ::
         Enabled(trace[i], steps[i]) && trace[i + 1] == Next(p, tpm, trace[i], steps[i])
  }

  // ------------------------------------------------------------------ books

  /** What one call has drawn from the bucket. */
  function Drawn(tpm: int, c: Call): int {
    match c
    case Running(estimate) => Clamp(tpm, estimate)
    case Unreported(estimate) => Clamp(tpm, estimate)
    case Reported(estimate, actual) => Clamp(tpm, estimate) + actual - estimate
  }

  /** What it should have drawn: its reported total once known, its estimate until then. */
  function Due(c: Call): int {
    match c
    case Running(estimate) => estimate
    case Unreported(estimate) => estimate
    case Reported(_, actual) => actual
  }

  function Sum(f: Call -> int, calls: seq<Call>): int {
    if calls == [] then 0 else Sum(f, calls[..|calls| - 1]) + f(calls[|calls| - 1])
  }

  lemma {:induction false} SumUpdate(f: Call -> int, calls: seq<Call>, i: nat, c: Call)
    requires i < |calls|
    ensures Sum(f, calls[i := c]) == Sum(f, calls) - f(calls[i]) + f(c)
  {
    var n := |calls| - 1;
    if i < n {
      assert calls[i := c][..n] == calls[..n][i := c];
      SumUpdate(f, calls[..n], i, c);
    } else {
      assert calls[i := c][..n] == calls[..n];
    }
  }

  lemma SumSnoc(f: Call -> int, calls: seq<Call>, c: Call)
    ensures Sum(f, calls + [c]) == Sum(f, calls) + f(c)
  {
    assert (calls + [c])[..|calls|] == calls;
  }

  /** The level is what a full bucket and the refill since give, less charges and losses, plus
      what expiry forgave. */
  predicate Settled(p: Params, t0: real, s: State) {
    && t0 <= s.now && Started(s.b, s.now) && (s.b.Present? ==> s.deadline == s.b.ts + p.ttl)
    && Level(p, s.b, s.now) == p.capacity + Gain(p, t0, s.now) - s.charged as real - s.spilled - s.cut + s.forgiven
    && s.spilled >= 0.0 && s.cut >= 0.0 && s.forgiven >= 0.0
  }

  predicate Balanced(p: Params, tpm: int, t0: real, s: State) {
    Settled(p, t0, s) && s.charged == Sum(c => Drawn(tpm, c), s.calls)
  }

  lemma ScriptBalances(p: Params, t0: real, s: State, e: Event)
    requires Usable(p) && Settled(p, t0, s) && s.now <= e.at && (e.op.Acquire? ==> e.op.need >= 0)
    ensures Settled(p, t0, RunScript(p, s, e))
  {
    GainTriangle(p, t0, s.now, e.at);
    GainTriangle(p, if s.b.Present? then s.b.ts else s.now, s.now, e.at);
    GainTriangle(p, e.at, e.at, e.at);
    hide Gain;
  }

  lemma LapseBalances(p: Params, tpm: int, t0: real, s: State, at: real)
    requires Usable(p) && Settled(p, t0, s) && Enabled(s, Lapse(at))
    ensures Settled(p, t0, Next(p, tpm, s, Lapse(at)))
  {
    GainTriangle(p, t0, s.now, at);
    GainTriangle(p, s.b.ts, s.now, at);
    hide Gain;
  }

  /** The key's expiry forgives nothing exactly when the level it held recovers within the TTL,
      if it vanishes at its deadline; later it can only forgive less. */
  lemma ForgivesIff(p: Params, tpm: int, t0: real, s: State, at: real)
    requires Usable(p) && p.ttl >= 0.0 && Settled(p, t0, s) && Enabled(s, Lapse(at))
    ensures var s' := Next(p, tpm, s, Lapse(at));
            && (Recovers(p, s.b) ==> s'.forgiven == s.forgiven)
            && (at == s.deadline && s'.forgiven == s.forgiven ==> Recovers(p, s.b))
  {
    if Recovers(p, s.b) {
      FullAfterTtl(p, s.b.tokens, s.b.ts, at);
    } else {
      assert p.ttl * p.rate == p.rate * p.ttl;
    }
  }

  lemma StepBalances(p: Params, tpm: int, t0: real, s: State, step: Step)
    requires Usable(p) && tpm >= 0 && Enabled(s, step) && Balanced(p, tpm, t0, s)
    ensures Balanced(p, tpm, t0, Next(p, tpm, s, step))
  {
    hide Level, Gain, Script;
    var f := c => Drawn(tpm, c);
    match step {
      case Poll(at, estimate) =>
        ScriptBalances(p, t0, s, Event(at, Acquire(Clamp(tpm, estimate))));
        SumSnoc(f, s.calls, Running(estimate));
      case Finish(at, call, messages) =>
        var estimate := s.calls[call].estimate;
        SumUpdate(f, s.calls, call, Unreported(estimate));
        if LastTotal(messages).Some? {
          var actual := LastTotal(messages).value;
          SumUpdate(f, s.calls, call, Reported(estimate, actual));
          ScriptBalances(p, t0, s, Event(at, Adjust(actual - estimate)));
        }
      case Fail(call) => SumUpdate(f, s.calls, call, Unreported(s.calls[call].estimate));
      case Lapse(at) => LapseBalances(p, tpm, t0, s, at);
    }
  }

  /** In every history the bucket's level, the charges and the losses balance, and the
      charges are exactly what the begun calls drew. */
  lemma {:induction false} BooksBalance(p: Params, tpm: int, t0: real, steps: seq<Step>, trace: seq<State>)
    requires Usable(p) && tpm >= 0 && History(p, tpm, t0, steps, trace)
    ensures Balanced(p, tpm, t0, trace[|steps|])
  {
    if steps == [] {
      GainTriangle(p, t0, t0, t0);
    } else {
      var n := |steps| - 1;
      assert History(p, tpm, t0, steps[..n], trace[..n + 1]);
      BooksBalance(p, tpm, t0, steps[..n], trace[..n + 1]);
      StepBalances(p, tpm, t0, trace[n], steps[n]);
    }
  }

  /** What the calls drew falls short of what they should have drawn by exactly the part of
      each estimate that exceeds the capacity. */
  lemma {:induction false} OvershootMissing(tpm: int, calls: seq<Call>)
    requires tpm > 0
    ensures Sum(Due, calls) - Sum(c => Drawn(tpm, c), calls)
         == Sum((c: Call) => if c.estimate > tpm then c.estimate - tpm else 0, calls)
    ensures Sum(c => Drawn(tpm, c), calls) <= Sum(Due, calls)
    ensures Sum(c => Drawn(tpm, c), calls) == Sum(Due, calls)
            <==> forall c | c in calls :: c.estimate <= tpm
  {
    if calls != [] {
      var n := |calls| - 1;
      OvershootMissing(tpm, calls[..n]);
      assert forall c :: c in calls <==> c in calls[..n] || c == calls[n];
    }
  }

  /** Charges equal the reported totals of finished calls plus the estimates of all others
      exactly when every begun call's estimate fits the capacity: a larger request is
      clamped when reserved but refunded in full when reconciled, and the shortfall is the sum
      of what those estimates exceed the capacity by. */
  lemma ChargesMatchReports(p: Params, tpm: int, t0: real, steps: seq<Step>, trace: seq<State>)
    requires Usable(p) && tpm > 0 && History(p, tpm, t0, steps, trace)
    ensures var s := trace[|steps|];
            && s.charged <= Sum(Due, s.calls)
            && Sum(Due, s.calls) - s.charged
               == Sum((c: Call) => if c.estimate > tpm then c.estimate - tpm else 0, s.calls)
            && (s.charged == Sum(Due, s.calls) <==> forall c | c in s.calls :: c.estimate <= tpm)
  {
    BooksBalance(p, tpm, t0, steps, trace);
    OvershootMissing(tpm, trace[|steps|].calls);
  }

  // --------------------------------------------------------------- one call

  /** `awrap_model_call`: reserve the estimate, call the model, reconcile.  `answer` is the
      handler's outcome, None when it raised; `latency` its duration. */
  method AwrapModelCall(bucket: RedisTokenBucket, h: BucketHash, estimate: nat, start: real,
                        pause: nat -> real, latency: real, answer: Option<seq<Usage>>)
    returns (granted: real)
    requires bucket.Valid() && bucket.maxSleep > 0.0 && latency >= 0.0
    requires forall i :: pause(i) >= 0.0
    requires Armed(bucket.p, h.State(), start)
    modifies h
    ensures granted >= start && h.present
    ensures var p := bucket.p;
            var reserved := Present(Level(p, old(h.Seen(start)), granted)
                                    - (if estimate > bucket.tpm then bucket.tpm else estimate) as real,
                                    granted);
            var total := if answer.Some? then LastTotal(answer.value) else None;
            Recovers(p, old(h.Seen(start))) || (forall i :: bucket.maxSleep + pause(i) < p.ttl) ==>
              if total.None? || total.value == estimate then
                h.State() == Key(reserved, granted + p.ttl)
              else
                h.State() == TouchKey(p, Key(if latency < p.ttl then reserved else Absent, 0.0),
                                      Event(granted + latency, Adjust(total.value - estimate)))
  {
    var polls;
    polls, granted := bucket.Acquire(h, estimate, start, pause);
    hide Level, Gain, Script, Recovers;
    if answer.Some? {
      var actual := ActualTotalTokens(answer.value);
      if actual.Some? {
        bucket.AdjustBy(h, actual.value - estimate, granted + latency);
      }
    }
  }
}
