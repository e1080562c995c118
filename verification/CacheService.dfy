/** The cache object and `view_url` as they run: fields updated call by call, each call proved
    to extend the shared history of Caching, whose theorems then apply to what it returns. */
module CacheService {
  import opened Caching
  import opened Options

  datatype Mode = KvThenMem | MemOnly

  /** How a KV command goes: answered, errored without effect, or errored after landing. */
  datatype Outcome = Answered | Lost | Landed

  /** The KV server, and the history every process takes part in. */
  class Backend<V> {
    var data: map<string, Entry<V>>
    ghost var log: seq<Step<V>>
    ghost var calls: nat

    constructor ()
      ensures data == map[] && log == [] && calls == 0
    {
      data, log, calls := map[], [], 0;
    }

    /** The server's keys are those of the history, and call numbers from `calls` on are free. */
    ghost predicate Valid(c: Config)
      reads this
    {
      && data == Kv(log) && Possible(c, log)
      && forall n: nat :: n >= calls ==> InstOf(log, n).None?
    }

    ghost predicate NotAfter(at: real)
      reads this
    { log != [] ==> Top(log).at <= at }
  }

  /** `_ttl`: the call's TTL, else the default; anything not positive is refused. */
  function EffectiveTtl(ttl: Option<int>, default: Option<int>): Option<int> {
    var eff := if ttl.Some? then ttl else default;
    if eff.None? || eff.value <= 0 then None else eff
  }

  /** `_k` */
  function KeyText(namespace: string, key: string): string { if namespace == "" then key else namespace + ":" + key }

  /** What the read path adds to the history. */
  function GetTrail<V>(up: bool, call: nat, inst: nat, k: string, at: real, done: real, answer: Outcome): seq<Step<V>> {
    if !up then [Begin(call, inst, at), MemGet(inst, k, done)]
    else if answer.Answered? then [Begin(call, inst, at), KvGet(call, k, done)]
    else [Begin(call, inst, at), Fail(call, done), MemGet(inst, k, done)]
  }

  /** What the write path adds. */
  function SetTrail<V>(up: bool, call: nat, inst: nat, k: string, v: V, ttl: int, at: real, done: real,
                       answer: Outcome, evicted: set<string>): seq<Step<V>> {
    [Begin(call, inst, at)]
    + (if up && !answer.Lost? then [KvSet(call, k, v, ttl, done)] else [])
    + (if up && !answer.Answered? then [Fail(call, done)] else [])
    + (if up && answer.Answered? then [] else [MemSet(inst, k, v, ttl, done), Evict(inst, evicted, done)])
  }

  /** What the delete path adds. */
  function DeleteTrail<V>(up: bool, call: nat, inst: nat, k: string, at: real, done: real, answer: Outcome): seq<Step<V>> {
    [Begin(call, inst, at), MemPop(inst, k, at)]
    + (if up && !answer.Lost? then [KvDelete(call, k, done)] else [])
    + (if up && !answer.Answered? then [Fail(call, done)] else [])
  }

  /** A call may begin: its number is new and time has not passed `at`. */
  ghost predicate MayBegin<V>(c: Config, s: seq<Step<V>>, call: nat, inst: nat, at: real, up: bool) {
    && Possible(c, s) && (s != [] ==> Top(s).at <= at)
    && InstOf(s, call).None?
    && (up <==> inst in c.usesKv && at >= DownUntil(c, s, inst))
  }

  /** The history `t` continues `s` by one call of `inst`. */
  ghost predicate Continues<V>(c: Config, s: seq<Step<V>>, t: seq<Step<V>>, call: nat, inst: nat, up: bool) {
    && t != [] && Possible(c, t) && InstOf(t, call) == Some(inst) && (UsesKv(c, t, call) <==> up)
    && forall n: nat :: n != call ==> InstOf(t, n) == InstOf(s, n)
  }

  lemma BeginContinues<V>(c: Config, s: seq<Step<V>>, call: nat, inst: nat, at: real, up: bool)
    requires MayBegin(c, s, call, inst, at, up)
    ensures var t := s + [Begin(call, inst, at)];
            && Continues(c, s, t, call, inst, up) && Top(t).at == at
            && Kv(t) == Kv(s) && Mem(t, inst) == Mem(s, inst) && DownUntil(c, t, inst) == DownUntil(c, s, inst)
  {
    Snoc(c, s, Begin(call, inst, at), inst);
    hide Possible, Kv, Mem, InstOf, UsesKv, DownUntil;
  }

  lemma StepContinues<V>(c: Config, s: seq<Step<V>>, t: seq<Step<V>>, call: nat, inst: nat, up: bool, x: Step<V>)
    requires Continues(c, s, t, call, inst, up) && !x.Begin? && Top(t).at <= x.at
    requires x.KvSet? || x.MemSet? ==> x.ttl > 0
    requires TouchesKv(x) ==> up && x.call == call
    requires x.MemSet? || x.MemPop? || x.Evict? ==> x.inst == inst
    ensures Continues(c, s, t + [x], call, inst, up) && Top(t + [x]).at == x.at
    ensures Kv(t + [x]) == if x.KvSet? then Kv(t)[x.key := Entry(x.value, x.at + x.ttl as real)]
                           else if x.KvDelete? then Kv(t) - {x.key} else Kv(t)
    ensures Mem(t + [x], inst) == if x.MemSet? then Mem(t, inst)[x.key := Entry(x.value, x.at + x.ttl as real)]
                                  else if x.MemPop? then Mem(t, inst) - {x.key}
                                  else if x.Evict? then Mem(t, inst) - x.keys else Mem(t, inst)
    ensures DownUntil(c, t + [x], inst) == if x.Fail? then x.at + c.cooldown else DownUntil(c, t, inst)
  {
    Snoc(c, t, x, inst);
    hide Possible, Kv, Mem, InstOf, UsesKv, DownUntil;
  }

  lemma SetContinues<V>(c: Config, s: seq<Step<V>>, up: bool, call: nat, inst: nat, k: string, v: V, ttl: int,
                        at: real, done: real, answer: Outcome, evicted: set<string>)
    requires MayBegin(c, s, call, inst, at, up) && at <= done && ttl > 0
    ensures var t := s + SetTrail(up, call, inst, k, v, ttl, at, done, answer, evicted);
            var entry := Entry(v, done + ttl as real);
            && Continues(c, s, t, call, inst, up) && Top(t).at == done
            && Kv(t) == (if up && !answer.Lost? then Kv(s)[k := entry] else Kv(s))
            && Mem(t, inst) == (if up && answer.Answered? then Mem(s, inst) else Mem(s, inst)[k := entry] - evicted)
            && DownUntil(c, t, inst) == (if up && !answer.Answered? then done + c.cooldown else DownUntil(c, s, inst))
  {
    hide Possible, Kv, Mem, InstOf, UsesKv, DownUntil, Continues, MayBegin, Drop, Top;
    var trail := SetTrail(up, call, inst, k, v, ttl, at, done, answer, evicted);
    BeginContinues(c, s, call, inst, at, up);
    var t := s + [Begin(call, inst, at)];
    if up && !answer.Lost? {
      StepContinues(c, s, t, call, inst, up, KvSet(call, k, v, ttl, done));
      t := t + [KvSet(call, k, v, ttl, done)];
    }
    if up && !answer.Answered? {
      StepContinues(c, s, t, call, inst, up, Fail(call, done));
      t := t + [Fail(call, done)];
    }
    if !(up && answer.Answered?) {
      StepContinues(c, s, t, call, inst, up, MemSet(inst, k, v, ttl, done));
      t := t + [MemSet(inst, k, v, ttl, done)];
      StepContinues(c, s, t, call, inst, up, Evict(inst, evicted, done));
      t := t + [Evict(inst, evicted, done)];
    }
    assert t == s + trail;
  }

  lemma DeleteContinues<V>(c: Config, s: seq<Step<V>>, up: bool, call: nat, inst: nat, k: string,
                           at: real, done: real, answer: Outcome)
    requires MayBegin(c, s, call, inst, at, up) && at <= done
    ensures var t := s + DeleteTrail(up, call, inst, k, at, done, answer);
            && Continues(c, s, t, call, inst, up) && Top(t).at <= done
            && Kv(t) == (if up && !answer.Lost? then Kv(s) - {k} else Kv(s))
            && Mem(t, inst) == Mem(s, inst) - {k}
            && DownUntil(c, t, inst) == (if up && !answer.Answered? then done + c.cooldown else DownUntil(c, s, inst))
  {
    hide Possible, Kv, Mem, InstOf, UsesKv, DownUntil, Continues, MayBegin, Drop, Top;
    var trail: seq<Step<V>> := DeleteTrail(up, call, inst, k, at, done, answer);
    BeginContinues(c, s, call, inst, at, up);
    var t := s + [Begin(call, inst, at)];
    StepContinues(c, s, t, call, inst, up, MemPop(inst, k, at));
    t := t + [MemPop(inst, k, at)];
    if up && !answer.Lost? {
      StepContinues(c, s, t, call, inst, up, KvDelete(call, k, done));
      t := t + [KvDelete(call, k, done)];
    }
    if up && !answer.Answered? {
      StepContinues(c, s, t, call, inst, up, Fail(call, done));
      t := t + [Fail(call, done)];
    }
    assert t == s + trail;
  }

  class Cache<V> {
    const kv: Backend<V>
    const id: nat
    const mode: Mode
    const namespace: string
    const defaultTtl: Option<int>
    const cooldown: real
    var mem: map<string, Entry<V>>
    var kvDownUntil: real

    constructor (kv: Backend<V>, id: nat, mode: Mode, namespace: string, defaultTtl: Option<int>, cooldown: real)
      ensures this.kv == kv && this.id == id && this.mode == mode && this.namespace == namespace
      ensures this.defaultTtl == defaultTtl && this.cooldown == cooldown && mem == map[] && kvDownUntil == 0.0
    {
      this.kv, this.id, this.mode, this.namespace := kv, id, mode, namespace;
      this.defaultTtl, this.cooldown := defaultTtl, cooldown;
      mem, kvDownUntil := map[], 0.0;
    }

    ghost predicate Valid(c: Config)
      reads this, kv
    {
      && kv.Valid(c) && c.cooldown == cooldown && (id in c.usesKv <==> mode.KvThenMem?)
      && mem == Mem(kv.log, id) && kvDownUntil == DownUntil(c, kv.log, id)
    }

    function Key(key: string): string { KeyText(namespace, key) }

    /** `_kv_up` and the mode test */
    predicate Up(at: real)
      reads this
    { mode.KvThenMem? && at >= kvDownUntil }

    /** `get`, begun at `at`, its KV answer or error (and memory read) at `done`. */
    method Get(ghost c: Config, key: string, at: real, done: real, answer: Outcome) returns (r: Option<V>)
      requires Valid(c) && kv.NotAfter(at) && at <= done
      modifies this, kv
      ensures Valid(c) && kv.NotAfter(done) && kv.data == old(kv.data)
      ensures kv.log == old(kv.log) + GetTrail(old(Up(at)), old(kv.calls), id, Key(key), at, done, answer)
      ensures var k := if namespace == "" then key else namespace + ":" + key;
              var up := mode.KvThenMem? && at >= old(kvDownUntil);
              var m := if up && answer.Answered? then old(kv.data) else old(mem);
              && mem == old(mem)
              && kvDownUntil == (if up && !answer.Answered? then done + cooldown else old(kvDownUntil))
              && (k in m && done < m[k].expires ==> r == Some(m[k].value))
              && (k in m && done >= m[k].expires ==> r == None)
              && (k !in m ==> r == None)
      ensures kv.log != [] && r == Returned(kv.log) && Reader(kv.log) == Some(id)
      ensures Top(kv.log).at == done && (Top(kv.log).KvGet? || Top(kv.log).MemGet?) && Top(kv.log).key == Key(key)
    {
      hide Possible, Kv, Mem, InstOf, UsesKv, DownUntil;
      var k := Key(key);
      ghost var call := kv.calls;
      ghost var s := kv.log;
      kv.calls := call + 1;
      Snoc(c, s, Begin(call, id, at), id);
      ghost var s1 := s + [Begin(call, id, at)];
      if mode.KvThenMem? && at >= kvDownUntil {
        if answer.Answered? {
          r := Read(kv.data, k, done);
          Snoc(c, s1, KvGet(call, k, done), id);
          kv.log := s1 + [KvGet(call, k, done)];
          assert kv.log == s + [Begin(call, id, at), KvGet(call, k, done)];
          return;
        }
        kvDownUntil := done + cooldown;
        Snoc(c, s1, Fail(call, done), id);
        ghost var s2 := s1 + [Fail(call, done)];
        r := Read(mem, k, done);
        Snoc(c, s2, MemGet(id, k, done), id);
        kv.log := s2 + [MemGet(id, k, done)];
        assert kv.log == s + [Begin(call, id, at), Fail(call, done), MemGet(id, k, done)];
        return;
      }
      r := Read(mem, k, done);
      Snoc(c, s1, MemGet(id, k, done), id);
      kv.log := s1 + [MemGet(id, k, done)];
      assert kv.log == s + [Begin(call, id, at), MemGet(id, k, done)];
    }

    /** `set`; false when the TTL is refused.  `evicted` is what the memory store drops to make
        room.  The value is stored, at `done`, in the KV or in memory (or in both, when the KV
        errs after landing). */
    method Set(ghost c: Config, key: string, value: Option<V>, ttl: Option<int>, at: real, done: real,
               answer: Outcome, evicted: set<string>) returns (ok: bool)
      requires Valid(c) && kv.NotAfter(at) && at <= done
      modifies this, kv
      ensures Valid(c) && kv.NotAfter(done)
      ensures ok <==> || value.None?
                      || (ttl.Some? && ttl.value > 0)
                      || (ttl.None? && defaultTtl.Some? && defaultTtl.value > 0)
      ensures value.None? || !ok ==> unchanged(this) && unchanged(kv)
      ensures ok && value.Some? ==>
                var eff := if ttl.Some? then ttl.value else defaultTtl.value;
                var entry := Entry(value.value, done + eff as real);
                && kv.data == (if old(Up(at)) && !answer.Lost? then old(kv.data)[Key(key) := entry] else old(kv.data))
                && mem == (if old(Up(at)) && answer.Answered? then old(mem)
                           else old(mem)[Key(key) := entry] - evicted)
                && kvDownUntil == (if old(Up(at)) && !answer.Answered? then done + cooldown else old(kvDownUntil))
      ensures ok && value.Some? ==>
                kv.log == old(kv.log) + SetTrail(old(Up(at)), old(kv.calls), id, Key(key), value.value,
                                                 if ttl.Some? then ttl.value else defaultTtl.value, at, done, answer, evicted)
    {
      hide Possible, Kv, Mem, InstOf, UsesKv, DownUntil, SetTrail;
      if value.None? { return true; }
      var eff := EffectiveTtl(ttl, defaultTtl);
      if eff.None? { return false; }
      ok := true;
      var k := Key(key);
      var up := mode.KvThenMem? && at >= kvDownUntil;
      SetContinues(c, kv.log, up, kv.calls, id, k, value.value, eff.value, at, done, answer, evicted);
      kv.log := kv.log + SetTrail(up, kv.calls, id, k, value.value, eff.value, at, done, answer, evicted);
      kv.calls := kv.calls + 1;
      if up {
        if !answer.Lost? { kv.data := kv.data[k := Entry(value.value, done + eff.value as real)]; }
        if answer.Answered? { return; }
        kvDownUntil := done + cooldown;
      }
      mem := mem[k := Entry(value.value, done + eff.value as real)] - evicted;
    }

    /** `delete`: memory first, then the KV if it is up. */
    method Delete(ghost c: Config, key: string, at: real, done: real, answer: Outcome)
      requires Valid(c) && kv.NotAfter(at) && at <= done
      modifies this, kv
      ensures Valid(c) && kv.NotAfter(done)
      ensures mem == old(mem) - {Key(key)}
      ensures kv.data == if old(Up(at)) && !answer.Lost? then old(kv.data) - {Key(key)} else old(kv.data)
      ensures kvDownUntil == if old(Up(at)) && !answer.Answered? then done + cooldown else old(kvDownUntil)
      ensures kv.log == old(kv.log) + DeleteTrail(old(Up(at)), old(kv.calls), id, Key(key), at, done, answer)
    {
      hide Possible, Kv, Mem, InstOf, UsesKv, DownUntil, DeleteTrail;
      var k := Key(key);
      var up := mode.KvThenMem? && at >= kvDownUntil;
      DeleteContinues(c, kv.log, up, kv.calls, id, k, at, done, answer);
      kv.log := kv.log + DeleteTrail(up, kv.calls, id, k, at, done, answer);
      kv.calls := kv.calls + 1;
      mem := mem - {k};
      if up {
        if !answer.Lost? { kv.data := kv.data - {k}; }
        if !answer.Answered? { kvDownUntil := done + cooldown; }
      }
    }
  }
}
