/** The KV-then-memory cache of doci/cache/cache.py.

    A history is the order in which the backends see things: calls beginning (and deciding
    whether the KV is up), KV commands landing, KV errors tripping the breaker, and each
    process's memory store being read, written, cleared or evicted from.  Calls of any number
    of cache instances may overlap; a set or delete that errs may still have landed. */
module Caching {
  import opened Options

  datatype Entry<V> = Entry(value: V, expires: real)

  datatype Step<V> =
    | Begin(call: nat, inst: nat, at: real)
    | KvGet(call: nat, key: string, at: real)
    | KvSet(call: nat, key: string, value: V, ttl: int, at: real)
    | KvDelete(call: nat, key: string, at: real)
    | Fail(call: nat, at: real)
    | MemGet(inst: nat, key: string, at: real)
    | MemSet(inst: nat, key: string, value: V, ttl: int, at: real)
    | MemPop(inst: nat, key: string, at: real)
    | Evict(inst: nat, keys: set<string>, at: real)

  /** Which instances use the KV at all, and the breaker's cooldown. */
  datatype Config = Config(usesKv: set<nat>, cooldown: real)

  function Drop<V>(s: seq<Step<V>>): seq<Step<V>>
    requires s != []
  { s[..|s| - 1] }

  function Top<V>(s: seq<Step<V>>): Step<V>
    requires s != []
  { s[|s| - 1] }

  // ------------------------------------------------------------------ state

  /** The KV's keys, expired entries included. */
  function Kv<V>(s: seq<Step<V>>): map<string, Entry<V>> {
    if s == [] then map[]
    else match Top(s)
      case KvSet(_, k, v, ttl, at) => Kv(Drop(s))[k := Entry(v, at + ttl as real)]
      case KvDelete(_, k, _) => Kv(Drop(s)) - {k}
      case _ => Kv(Drop(s))
  }

  /** One process's memory store. */
  function Mem<V>(s: seq<Step<V>>, inst: nat): map<string, Entry<V>> {
    if s == [] then map[]
    else
      var m := Mem(Drop(s), inst);
      match Top(s)
      case MemSet(i, k, v, ttl, at) => if i == inst then m[k := Entry(v, at + ttl as real)] else m
      case MemPop(i, k, _) => if i == inst then m - {k} else m
      case Evict(i, ks, _) => if i == inst then m - ks else m
      case _ => m
  }

  function Read<V>(m: map<string, Entry<V>>, k: string, at: real): Option<V> {
    if k in m && at < m[k].expires then Some(m[k].value) else None
  }

  /** The instance that began a call. */
  function InstOf<V>(s: seq<Step<V>>, call: nat): Option<nat> {
    if s == [] then None
    else if Top(s).Begin? && Top(s).call == call then Some(Top(s).inst)
    else InstOf(Drop(s), call)
  }

  /** `_kv_down_until` */
  function DownUntil<V>(c: Config, s: seq<Step<V>>, inst: nat): real {
    if s == [] then 0.0
    else if Top(s).Fail? && InstOf(Drop(s), Top(s).call) == Some(inst) then Top(s).at + c.cooldown
    else DownUntil(c, Drop(s), inst)
  }

  /** Whether the call found the KV up when it began. */
  predicate UsesKv<V>(c: Config, s: seq<Step<V>>, call: nat) {
    s != []
    && if Top(s).Begin? && Top(s).call == call
       then Top(s).inst in c.usesKv && Top(s).at >= DownUntil(c, Drop(s), Top(s).inst)
       else UsesKv(c, Drop(s), call)
  }

  /** What a read at the end of the history returns; other steps return nothing. */
  function Returned<V>(s: seq<Step<V>>): Option<V>
    requires s != []
  {
    match Top(s)
    case KvGet(_, k, at) => Read(Kv(Drop(s)), k, at)
    case MemGet(i, k, at) => Read(Mem(Drop(s), i), k, at)
    case _ => None
  }

  predicate TouchesKv<V>(step: Step<V>) { step.KvGet? || step.KvSet? || step.KvDelete? || step.Fail? }

  /** Time never steps back, calls begin once, TTLs are positive (`_ttl` refuses others), and
      only calls that found the KV up touch it. */
  predicate Possible<V>(c: Config, s: seq<Step<V>>) {
    s == []
    || (&& Possible(c, Drop(s))
        && (Drop(s) != [] ==> Top(Drop(s)).at <= Top(s).at)
        && (Top(s).Begin? ==> InstOf(Drop(s), Top(s).call).None?)
        && (Top(s).KvSet? || Top(s).MemSet? ==> Top(s).ttl > 0)
        && (TouchesKv(Top(s)) ==> UsesKv(c, Drop(s), Top(s).call)))
  }

  // -------------------------------------------------------------- provenance

  predicate WritesKv<V>(step: Step<V>, k: string) { (step.KvSet? || step.KvDelete?) && step.key == k }

  predicate WritesMem<V>(step: Step<V>, inst: nat, k: string) {
    (step.MemSet? || step.MemPop?) && step.inst == inst && step.key == k
  }

  /** The KV holds exactly the value of the last command that wrote the key, if it was a set. */
  lemma {:induction false} KvHoldsLast<V>(s: seq<Step<V>>, k: string)
    ensures k in Kv(s) ==>
              exists d :: 0 <= d < |s| && s[d].KvSet? && s[d].key == k
                          && Kv(s)[k] == Entry(s[d].value, s[d].at + s[d].ttl as real)
                          && forall e :: d < e < |s| ==> !WritesKv(s[e], k)
    ensures k !in Kv(s) ==>
              forall d :: 0 <= d < |s| && s[d].KvSet? && s[d].key == k ==>
                            exists e :: d < e < |s| && s[e].KvDelete? && s[e].key == k
  {
    if s != [] {
      var t, n := Drop(s), |s| - 1;
      KvHoldsLast(t, k);
      if WritesKv(Top(s), k) {
        assert s[n] == Top(s);
      } else if k in Kv(t) {
        var d :| 0 <= d < n && t[d].KvSet? && t[d].key == k
                 && Kv(t)[k] == Entry(t[d].value, t[d].at + t[d].ttl as real)
                 && forall e :: d < e < n ==> !WritesKv(t[e], k);
        assert s[d] == t[d] && forall e :: d < e < n ==> s[e] == t[e];
      } else {
        forall d | 0 <= d < |s| && s[d].KvSet? && s[d].key == k
          ensures exists e :: d < e < |s| && s[e].KvDelete? && s[e].key == k
        {
          assert d < n && t[d] == s[d];
          var e :| d < e < n && t[e].KvDelete? && t[e].key == k;
          assert s[e] == t[e];
        }
      }
    }
  }

  /** The memory store holds at most the value last put there. */
  lemma {:induction false} MemHoldsLast<V>(s: seq<Step<V>>, inst: nat, k: string)
    ensures k in Mem(s, inst) ==>
              exists d :: 0 <= d < |s| && s[d].MemSet? && s[d].inst == inst && s[d].key == k
                          && Mem(s, inst)[k] == Entry(s[d].value, s[d].at + s[d].ttl as real)
                          && forall e :: d < e < |s| ==> !WritesMem(s[e], inst, k)
  {
    if s != [] {
      var t, n := Drop(s), |s| - 1;
      MemHoldsLast(t, inst, k);
      if k in Mem(s, inst) {
        if WritesMem(Top(s), inst, k) {
          assert s[n] == Top(s);
        } else {
          var d :| 0 <= d < n && t[d].MemSet? && t[d].inst == inst && t[d].key == k
                   && Mem(t, inst)[k] == Entry(t[d].value, t[d].at + t[d].ttl as real)
                   && forall e :: d < e < n ==> !WritesMem(t[e], inst, k);
          assert s[d] == t[d] && forall e :: d < e < n ==> s[e] == t[e];
        }
      }
    }
  }

  lemma {:induction false} TimesOrdered<V>(c: Config, s: seq<Step<V>>, i: nat, j: nat)
    requires Possible(c, s) && i <= j < |s|
    ensures s[i].at <= s[j].at
  {
    var n := |s| - 1;
    if j < n {
      assert Drop(s)[i] == s[i] && Drop(s)[j] == s[j];
      TimesOrdered(c, Drop(s), i, j);
    } else if i < n {
      assert Drop(s)[n - 1] == s[n - 1] && Drop(s)[i] == s[i];
      TimesOrdered(c, Drop(s), i, n - 1);
    }
  }

  /** The instance a read answers. */
  function Reader<V>(s: seq<Step<V>>): Option<nat>
    requires s != []
  { if Top(s).MemGet? then Some(Top(s).inst) else if Top(s).KvGet? then InstOf(Drop(s), Top(s).call) else None }

  /** Step `d` is where the value returned at the end of the history came from: it stored it
      at the key less than its own TTL ago. */
  predicate Source<V(==)>(s: seq<Step<V>>, d: nat)
    requires s != []
  {
    && d < |s| - 1 && (Top(s).KvGet? || Top(s).MemGet?) && Returned(s).Some?
    && (if Top(s).KvGet? then s[d].KvSet? else s[d].MemSet? && s[d].inst == Top(s).inst)
    && s[d].key == Top(s).key && s[d].value == Returned(s).value
    && s[d].at <= Top(s).at < s[d].at + s[d].ttl as real
  }

  /** Through any failures, recoveries and evictions, a value returned for a key was given to
      a set of that key less than its own TTL ago. */
  lemma ValueIsRecent<V(!new)>(c: Config, s: seq<Step<V>>) returns (d: nat)
    requires s != [] && Possible(c, s) && Returned(s).Some?
    ensures Source(s, d)
    ensures forall e :: d < e < |s| - 1 ==>
              if Top(s).KvGet? then !WritesKv(s[e], Top(s).key) else !WritesMem(s[e], Top(s).inst, Top(s).key)
  {
    var t, k := Drop(s), Top(s).key;
    if Top(s).KvGet? {
      KvHoldsLast(t, k);
      d :| 0 <= d < |t| && t[d].KvSet? && t[d].key == k
           && Kv(t)[k] == Entry(t[d].value, t[d].at + t[d].ttl as real)
           && forall e :: d < e < |t| ==> !WritesKv(t[e], k);
    } else {
      MemHoldsLast(t, Top(s).inst, k);
      d :| 0 <= d < |t| && t[d].MemSet? && t[d].inst == Top(s).inst && t[d].key == k
           && Mem(t, Top(s).inst)[k] == Entry(t[d].value, t[d].at + t[d].ttl as real)
           && forall e :: d < e < |t| ==> !WritesMem(t[e], Top(s).inst, k);
    }
    assert s[d] == t[d] && forall e :: d < e < |t| ==> s[e] == t[e];
    TimesOrdered(c, s, d, |s| - 1);
    hide Kv, Mem, Possible;
  }

  /** The memory of `inst` was given no value for `k` after step `b`. */
  predicate NotRefilled<V>(s: seq<Step<V>>, inst: nat, k: string, b: nat) {
    forall e | b < e < |s| - 1 :: !(s[e].MemSet? && s[e].inst == inst && s[e].key == k)
  }

  /** After a delete has reached the KV (step `b`), any read, by any instance, returns a value
      older than the delete exactly when it answers from a memory store that has been given
      none since: reads of the KV never do. */
  lemma OldValueIff<V(!new)>(c: Config, s: seq<Step<V>>, k: string, b: nat) returns (d: nat)
    requires s != [] && Possible(c, s) && Returned(s).Some? && Top(s).key == k
    requires b < |s| - 1 && s[b].KvDelete? && s[b].key == k
    ensures Source(s, d)
    ensures d < b <==> Top(s).MemGet? && NotRefilled(s, Top(s).inst, k, b)
  {
    d := ValueIsRecent(c, s);
    hide Possible, Kv, Mem;
    assert WritesKv(s[b], k);
    if Top(s).MemGet? {
      assert forall e :: d < e < |s| - 1 && s[e].MemSet? && s[e].inst == Top(s).inst && s[e].key == k
                         ==> WritesMem(s[e], Top(s).inst, k);
    }
  }

  /** The promise for a reader that is safe: after a delete has cleared the reader's own memory
      (step `a`) and reached the KV (step `b`), or when the KV itself answers, nothing stored
      before the delete is returned until a new set. */
  lemma DeletedStaysGone<V(!new)>(c: Config, s: seq<Step<V>>, k: string, a: nat, b: nat) returns (d: nat)
    requires s != [] && Possible(c, s) && Returned(s).Some? && Top(s).key == k
    requires a <= b < |s| - 1 && s[b].KvDelete? && s[b].key == k
    requires Top(s).MemGet? ==> s[a].MemPop? && s[a].inst == Top(s).inst && s[a].key == k
    ensures Source(s, d) && a < d && (Top(s).KvGet? ==> b < d)
  {
    d := ValueIsRecent(c, s);
    assert WritesKv(s[b], k);
    assert Top(s).MemGet? ==> WritesMem(s[a], Top(s).inst, k);
    hide Possible, Kv, Mem;
  }

  // ---------------------------------------------------------------- breaker

  lemma {:induction false} TripHolds<V>(c: Config, s: seq<Step<V>>, f: nat, inst: nat)
    requires Possible(c, s) && f < |s| && s[f].Fail? && InstOf(s[..f], s[f].call) == Some(inst)
    ensures DownUntil(c, s, inst) >= s[f].at + c.cooldown
  {
    var n := |s| - 1;
    if f < n {
      assert Drop(s)[f] == s[f] && Drop(s)[..f] == s[..f];
      TripHolds(c, Drop(s), f, inst);
      TimesOrdered(c, s, f, n);
    }
  }

  lemma {:induction false} DecidedAtBegin<V>(c: Config, s: seq<Step<V>>, call: nat, b: nat)
    requires Possible(c, s) && b < |s| && s[b].Begin? && s[b].call == call
    ensures UsesKv(c, s, call) <==> s[b].inst in c.usesKv && s[b].at >= DownUntil(c, s[..b], s[b].inst)
    ensures InstOf(s, call) == Some(s[b].inst)
  {
    var n := |s| - 1;
    if b < n {
      assert Drop(s)[b] == s[b] && Drop(s)[..b] == s[..b];
      DecidedAtBegin(c, Drop(s), call, b);
    }
  }

  /** No call begun within the cooldown after its instance met a KV error touches the KV. */
  lemma CooldownRespected<V>(c: Config, s: seq<Step<V>>, f: nat, b: nat, u: nat, inst: nat)
    requires Possible(c, s) && f < b < u < |s|
    requires s[f].Fail? && InstOf(s[..f], s[f].call) == Some(inst)
    requires s[b].Begin? && s[b].inst == inst && s[b].at < s[f].at + c.cooldown
    ensures TouchesKv(s[u]) ==> s[u].call != s[b].call
  {
    PossiblePrefix(c, s, u + 1);
    PossiblePrefix(c, s, u);
    PossiblePrefix(c, s, b);
    assert s[..b][f] == s[f] && s[..b][..f] == s[..f] && s[..u][b] == s[b] && s[..u][..b] == s[..b];
    assert Drop(s[..u + 1]) == s[..u] && Top(s[..u + 1]) == s[u];
    TripHolds(c, s[..b], f, inst);
    DecidedAtBegin(c, s[..u], s[b].call, b);
  }

  lemma {:induction false} PossiblePrefix<V>(c: Config, s: seq<Step<V>>, n: nat)
    requires Possible(c, s) && n <= |s|
    ensures Possible(c, s[..n])
  {
    if n < |s| {
      PossiblePrefix(c, Drop(s), n);
      assert Drop(s)[..n] == s[..n];
    } else {
      assert s[..n] == s;
    }
  }

  // ------------------------------------------------------- where it stops

  lemma Extend<V>(s: seq<Step<V>>, x: Step<V>)
    ensures Drop(s + [x]) == s && Top(s + [x]) == x
  {}

  /** What one more step changes. */
  lemma Snoc<V>(c: Config, s: seq<Step<V>>, x: Step<V>, inst: nat)
    ensures var t := s + [x];
            && t != [] && Drop(t) == s && Top(t) == x
            && (Possible(c, t) <==>
                  && Possible(c, s) && (s != [] ==> Top(s).at <= x.at)
                  && (x.Begin? ==> InstOf(s, x.call).None?) && (x.KvSet? || x.MemSet? ==> x.ttl > 0)
                  && (TouchesKv(x) ==> UsesKv(c, s, x.call)))
            && (forall n: nat :: InstOf(t, n) == if x.Begin? && x.call == n then Some(x.inst) else InstOf(s, n))
            && (x.Begin? ==> (UsesKv(c, t, x.call) <==> x.inst in c.usesKv && x.at >= DownUntil(c, s, x.inst)))
            && (!x.Begin? ==> forall n: nat :: UsesKv(c, t, n) == UsesKv(c, s, n))
            && DownUntil(c, t, inst)
               == (if x.Fail? && InstOf(s, x.call) == Some(inst) then x.at + c.cooldown else DownUntil(c, s, inst))
            && (x.KvSet? ==> Kv(t) == Kv(s)[x.key := Entry(x.value, x.at + x.ttl as real)])
            && (x.KvDelete? ==> Kv(t) == Kv(s) - {x.key})
            && (!x.KvSet? && !x.KvDelete? ==> Kv(t) == Kv(s))
            && (x.MemSet? && x.inst == inst ==> Mem(t, inst) == Mem(s, inst)[x.key := Entry(x.value, x.at + x.ttl as real)])
            && (x.MemPop? && x.inst == inst ==> Mem(t, inst) == Mem(s, inst) - {x.key})
            && (x.Evict? && x.inst == inst ==> Mem(t, inst) == Mem(s, inst) - x.keys)
            && (x.MemSet? || x.MemPop? || x.Evict? ==> x.inst != inst ==> Mem(t, inst) == Mem(s, inst))
            && (!(x.MemSet? || x.MemPop? || x.Evict?) ==> Mem(t, inst) == Mem(s, inst))
  {
    assert Drop(s + [x]) == s;
  }

  /** The delete promise is per process.  A delete by `other` that clears its memory and the
      KV leaves `inst`'s memory alone; a read that `inst` then begins without the KV is a
      possible step and returns whatever that memory held. */
  lemma DeleteElsewhereKeepsMemory<V>(c: Config, s: seq<Step<V>>, inst: nat, other: nat, k: string, call: nat, at: real,
                                      call': nat, later: real)
    requires Possible(c, s) && InstOf(s, call).None? && InstOf(s, call').None? && call != call' && other != inst
    requires (s != [] ==> Top(s).at <= at) && at <= later
    requires other in c.usesKv && DownUntil(c, s, other) <= at
    requires inst in c.usesKv ==> later < DownUntil(c, s, inst)
    ensures var deleted := s + [Begin(call, other, at)] + [MemPop(other, k, at)] + [KvDelete(call, k, at)];
            var s' := deleted + [Begin(call', inst, later)] + [MemGet(inst, k, later)];
            && Possible(c, s') && !UsesKv(c, s', call') && k !in Kv(deleted) && k !in Mem(deleted, other)
            && Returned(s') == Read(Mem(s, inst), k, later)
  {
    var s1 := s + [Begin(call, other, at)];
    var s2 := s1 + [MemPop(other, k, at)];
    var s3 := s2 + [KvDelete(call, k, at)];
    var s4 := s3 + [Begin(call', inst, later)];
    Extend(s, Begin(call, other, at));
    Extend(s1, MemPop(other, k, at));
    Extend(s2, KvDelete(call, k, at));
    Extend(s3, Begin(call', inst, later));
    Extend(s4, MemGet(inst, k, later));
    assert Mem(s4, inst) == Mem(s3, inst) == Mem(s2, inst) == Mem(s1, inst) == Mem(s, inst);
    assert Possible(c, s1) && UsesKv(c, s1, call);
    assert Possible(c, s2) && UsesKv(c, s2, call);
    assert Possible(c, s3);
    assert InstOf(s3, call') == InstOf(s2, call') == InstOf(s1, call') == None;
    assert DownUntil(c, s3, inst) == DownUntil(c, s2, inst) == DownUntil(c, s1, inst) == DownUntil(c, s, inst);
    assert Possible(c, s4) && !UsesKv(c, s4, call');
  }

  /** A KV error sends one process's value to its memory and opens its breaker. */
  function KeptInMemory<V>(k: string, v: V, ttl: int): seq<Step<V>> {
    [] + [Begin(0, 0, 0.0)] + [Fail(0, 0.0)] + [MemSet(0, k, v, ttl, 0.0)]
  }

  lemma KeptFacts<V>(k: string, v: V, ttl: int, cooldown: real)
    requires ttl > 0
    ensures var c, s := Config({0, 1}, cooldown), KeptInMemory(k, v, ttl);
            && s != [] && Possible(c, s) && Top(s).at == 0.0 && InstOf(s, 1).None? && InstOf(s, 2).None?
            && DownUntil(c, s, 0) == cooldown && DownUntil(c, s, 1) == 0.0
            && k in Mem(s, 0) && Mem(s, 0)[k] == Entry(v, ttl as real)
  {
    var c := Config({0, 1}, cooldown);
    var s0: seq<Step<V>> := [];
    var s1 := s0 + [Begin(0, 0, 0.0)];
    var s2 := s1 + [Fail(0, 0.0)];
    assert Possible(c, s0) && InstOf(s0, 0) == InstOf(s0, 1) == InstOf(s0, 2) == None;
    assert DownUntil(c, s0, 0) == DownUntil(c, s0, 1) == 0.0;
    hide Possible, InstOf, DownUntil, UsesKv, Mem, Kv;
    Snoc(c, s0, Begin(0, 0, 0.0), 0);
    Snoc(c, s0, Begin(0, 0, 0.0), 1);
    Snoc(c, s1, Fail(0, 0.0), 0);
    Snoc(c, s1, Fail(0, 0.0), 1);
    Snoc(c, s2, MemSet(0, k, v, ttl, 0.0), 0);
    Snoc(c, s2, MemSet(0, k, v, ttl, 0.0), 1);
  }

  /** Such a history from the start: another process deletes the key, and the first still
      answers with the value it kept. */
  lemma StaleValueReturned<V>(k: string, v: V, ttl: int, cooldown: real)
    requires ttl > 2 && cooldown > 2.0
    ensures var c := Config({0, 1}, cooldown);
            var deleted := KeptInMemory(k, v, ttl) + [Begin(1, 1, 1.0)] + [MemPop(1, k, 1.0)] + [KvDelete(1, k, 1.0)];
            var s := deleted + [Begin(2, 0, 2.0)] + [MemGet(0, k, 2.0)];
            Possible(c, s) && k !in Kv(deleted) && Returned(s) == Some(v)
  {
    KeptFacts(k, v, ttl, cooldown);
    hide Possible, InstOf, DownUntil, UsesKv, Mem, Kv, Returned, KeptInMemory;
    DeleteElsewhereKeepsMemory(Config({0, 1}, cooldown), KeptInMemory(k, v, ttl), 0, 1, k, 1, 1.0, 2, 2.0);
  }

  /** A delete begun while the breaker is open may not touch the KV, whose value is returned
      again once the breaker closes. */
  lemma DeleteWhileDownKeepsKv<V>(c: Config, s: seq<Step<V>>, inst: nat, k: string, call: nat, at: real,
                                  call': nat, later: real)
    requires Possible(c, s) && InstOf(s, call).None? && InstOf(s, call').None? && call != call'
    requires (s != [] ==> Top(s).at <= at) && at < DownUntil(c, s, inst) <= later && inst in c.usesKv
    ensures var deleted := s + [Begin(call, inst, at)] + [MemPop(inst, k, at)];
            var s' := deleted + [Begin(call', inst, later)] + [KvGet(call', k, later)];
            && Possible(c, s') && !UsesKv(c, deleted, call)
            && Returned(s') == Read(Kv(s), k, later)
  {
    var s1 := s + [Begin(call, inst, at)];
    var s2 := s1 + [MemPop(inst, k, at)];
    var s3 := s2 + [Begin(call', inst, later)];
    Extend(s, Begin(call, inst, at));
    Extend(s1, MemPop(inst, k, at));
    Extend(s2, Begin(call', inst, later));
    Extend(s3, KvGet(call', k, later));
    assert s1 != [] && s2 != [] && s3 != [];
    assert Kv(s1) == Kv(s);
    assert Kv(s2) == Kv(s1);
    assert Possible(c, s1);
    assert Possible(c, s2);
    assert DownUntil(c, s2, inst) == DownUntil(c, s1, inst) == DownUntil(c, s, inst);
    assert InstOf(s2, call') == InstOf(s1, call') == None;
    assert Possible(c, s3) && UsesKv(c, s3, call') && Kv(s3) == Kv(s2);
  }
}
