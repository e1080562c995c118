/** The Valkey checkpointer of doci/workflows/checkpoint.py over expiring keys: what each
    command pipeline leaves in the store, and what lookups and listings read from it.
    Serialization is an inverse pair, so stored payloads stand for themselves. */
module Checkpoints {
  import opened Keyspace
  import opened Options
  import opened Sorting
  import opened Text
  import PW = PendingWrites

  datatype Scope = Scope(thread: string, ns: string)
  datatype CpKey = CpKey(scope: Scope, cid: string)

  /** A metadata value; Python's None is Null. */
  datatype Value = Null | Text(s: string)
  type Metadata = map<string, Value>

  /** The hash of one checkpoint; `parent` is "" when there is none. */
  datatype Saved = Saved(content: string, md: Metadata, parent: string)

  datatype Store = Store(cps: map<CpKey, Entry<Saved>>, idx: map<Scope, Entry<set<string>>>,
                         ws: map<CpKey, Entry<map<string, PW.Row>>>)

  datatype Tuple = Tuple(key: CpKey, content: string, md: Metadata, parent: Option<CpKey>, pending: seq<PW.Slot>)

  /** The server times at which the four commands of one put pipeline run: the pipeline is
      not a transaction. */
  datatype Stamps = Stamps(hset: int, expireCp: int, sadd: int, expireIdx: int)

  predicate Ordered(t: Stamps) { t.hset <= t.expireCp <= t.sadd <= t.expireIdx }

  function PutCps(s: Store, ttl: int, key: CpKey, saved: Saved, t: Stamps): map<CpKey, Entry<Saved>> {
    Expire(Put(s.cps, key, saved, t.hset), key, ttl, t.expireCp)
  }

  function PutIdx(s: Store, ttl: int, key: CpKey, t: Stamps): map<Scope, Entry<set<string>>> {
    Expire(Put(s.idx, key.scope, GetOr(s.idx, key.scope, t.sadd, {}) + {key.cid}, t.sadd),
           key.scope, ttl, t.expireIdx)
  }

  /** `aput` */
  function PutStore(s: Store, ttl: int, key: CpKey, saved: Saved, t: Stamps): Store {
    Store(PutCps(s, ttl, key, saved, t), PutIdx(s, ttl, key, t), s.ws)
  }

  /** No key the pipeline rewrites lapses between its write and its EXPIRE. */
  predicate Clean(s: Store, key: CpKey, t: Stamps) {
    && (key in s.cps && Live(s.cps[key], t.hset) ==> Live(s.cps[key], t.expireCp))
    && (key.scope in s.idx && Live(s.idx[key.scope], t.sadd) ==> Live(s.idx[key.scope], t.expireIdx))
  }

  /** The put's checkpoint and its index entry stand for a full TTL. */
  predicate Recorded(s: Store, ttl: int, key: CpKey, saved: Saved, t: Stamps) {
    && key in s.cps && s.cps[key] == Entry(saved, Some(t.expireCp + ttl))
    && key.scope in s.idx && s.idx[key.scope].deadline == Some(t.expireIdx + ttl)
    && key.cid in s.idx[key.scope].value
  }

  /** A completed put stands for a full TTL exactly when nothing it rewrites lapses inside its
      pipeline: an index expiring between SADD and EXPIRE takes the new id with it. */
  lemma PutRecordedIff(s: Store, ttl: int, key: CpKey, saved: Saved, t: Stamps)
    requires ttl > 0 && Ordered(t)
    ensures Recorded(PutStore(s, ttl, key, saved, t), ttl, key, saved, t) <==> Clean(s, key, t)
  {}

  /** Every unexpired checkpoint's id is in its thread's index, which outlives it. */
  ghost predicate IndexCovers(s: Store, ttl: int, now: int) {
    forall k :: k in s.cps && Live(s.cps[k], now) ==>
      && s.cps[k].deadline.Some? && s.cps[k].deadline.value <= now + ttl && k.scope in s.idx
      && s.idx[k.scope].deadline.Some? && s.cps[k].deadline.value <= s.idx[k.scope].deadline.value
      && k.cid in s.idx[k.scope].value
  }

  /** A clean put keeps every unexpired checkpoint of every thread in its index. */
  lemma PutKeepsCover(s: Store, ttl: int, key: CpKey, saved: Saved, t: Stamps, now: int)
    requires Ordered(t) && now <= t.hset && Clean(s, key, t) && IndexCovers(s, ttl, now)
    ensures IndexCovers(PutStore(s, ttl, key, saved, t), ttl, t.expireIdx)
  {
    var s' := PutStore(s, ttl, key, saved, t);
    forall k | k in s'.cps && Live(s'.cps[k], t.expireIdx)
      ensures s'.cps[k].deadline.Some? && s'.cps[k].deadline.value <= t.expireIdx + ttl
           && k.scope in s'.idx && s'.idx[k.scope].deadline.Some?
           && s'.cps[k].deadline.value <= s'.idx[k.scope].deadline.value && k.cid in s'.idx[k.scope].value
    {
      PutCoversOne(s, ttl, key, saved, t, now, k);
    }
    hide PutStore, Clean;
  }

  lemma PutCoversOne(s: Store, ttl: int, key: CpKey, saved: Saved, t: Stamps, now: int, k: CpKey)
    requires Ordered(t) && now <= t.hset && Clean(s, key, t) && IndexCovers(s, ttl, now)
    requires var s' := PutStore(s, ttl, key, saved, t); k in s'.cps && Live(s'.cps[k], t.expireIdx)
    ensures var s' := PutStore(s, ttl, key, saved, t);
            && s'.cps[k].deadline.Some? && s'.cps[k].deadline.value <= t.expireIdx + ttl
            && k.scope in s'.idx && s'.idx[k.scope].deadline.Some?
            && s'.cps[k].deadline.value <= s'.idx[k.scope].deadline.value && k.cid in s'.idx[k.scope].value
  {
    if k != key { assert Live(s.cps[k], now); }
  }

  // -------------------------------------------------------------- histories

  datatype PutCall = PutCall(key: CpKey, saved: Saved, t: Stamps)

  function After(ttl: int, log: seq<PutCall>): Store {
    if log == [] then Store(map[], map[], map[])
    else
      var p := log[|log| - 1];
      PutStore(After(ttl, log[..|log| - 1]), ttl, p.key, p.saved, p.t)
  }

  /** The puts complete one after another, none losing a key mid-pipeline. */
  predicate Puts(ttl: int, log: seq<PutCall>) {
    log == []
    || (var pre, p := log[..|log| - 1], log[|log| - 1];
        && Puts(ttl, pre) && Ordered(p.t) && Clean(After(ttl, pre), p.key, p.t)
        && (pre != [] ==> pre[|pre| - 1].t.expireIdx <= p.t.hset))
  }

  function Newest(log: seq<PutCall>, scope: Scope): Option<PutCall> {
    if log == [] then None
    else if log[|log| - 1].key.scope == scope then Some(log[|log| - 1])
    else Newest(log[..|log| - 1], scope)
  }

  /** Within each scope no id is put after a greater one, and ids are not empty. */
  predicate Increasing(log: seq<PutCall>) {
    log == []
    || (var pre, p := log[..|log| - 1], log[|log| - 1];
        && Increasing(pre) && p.key.cid != ""
        && (Newest(pre, p.key.scope).Some? ==> !Less(p.key.cid, Newest(pre, p.key.scope).value.key.cid)))
  }

  function Done(log: seq<PutCall>): int
    requires log != []
  { log[|log| - 1].t.expireIdx }

  /** After each completed put of a history the index covers every unexpired checkpoint. */
  lemma {:induction false} HistoryCovered(ttl: int, log: seq<PutCall>, now: int)
    requires Puts(ttl, log) && (log != [] ==> Done(log) <= now)
    ensures IndexCovers(After(ttl, log), ttl, now)
  {
    if log != [] {
      var pre, p := log[..|log| - 1], log[|log| - 1];
      HistoryCovered(ttl, pre, p.t.hset);
      PutKeepsCover(After(ttl, pre), ttl, p.key, p.saved, p.t, p.t.hset);
      CoversLater(After(ttl, log), ttl, Done(log), now);
      hide PutStore, IndexCovers, Clean;
    }
  }

  lemma CoversLater(s: Store, ttl: int, before: int, now: int)
    requires IndexCovers(s, ttl, before) && before <= now
    ensures IndexCovers(s, ttl, now)
  {}

  /** Until it is put again, a checkpoint reads back as it was put. */
  lemma {:induction false} HistoryReadsBack(ttl: int, log: seq<PutCall>, i: nat)
    requires Puts(ttl, log) && i < |log|
    requires forall j | i < j < |log| :: log[j].key != log[i].key
    ensures log[i].key in After(ttl, log).cps
         && After(ttl, log).cps[log[i].key] == Entry(log[i].saved, Some(log[i].t.expireCp + ttl))
  {
    if i < |log| - 1 { HistoryReadsBack(ttl, log[..|log| - 1], i); }
  }

  /** What a scope's keys hold after a history: its newest put, the greatest id, the last to
      expire. */
  ghost predicate ScopeState(ttl: int, s: Store, scope: Scope, newest: Option<PutCall>) {
    match newest
    case None => scope !in s.idx && forall k :: k in s.cps ==> k.scope != scope
    case Some(p) =>
      && p.key.scope == scope && p.key.cid != "" && p.t.expireCp <= p.t.expireIdx
      && p.key in s.cps && s.cps[p.key] == Entry(p.saved, Some(p.t.expireCp + ttl))
      && scope in s.idx && s.idx[scope].deadline == Some(p.t.expireIdx + ttl)
      && p.key.cid in s.idx[scope].value
      && (forall c :: c in s.idx[scope].value ==> c != "" && !Less(p.key.cid, c))
      && (forall k :: k in s.cps && k.scope == scope ==>
            s.cps[k].deadline.Some? && s.cps[k].deadline.value <= p.t.expireCp + ttl)
  }

  lemma {:induction false} HistoryScope(ttl: int, log: seq<PutCall>, scope: Scope)
    requires Puts(ttl, log) && Increasing(log)
    ensures ScopeState(ttl, After(ttl, log), scope, Newest(log, scope))
    ensures Newest(log, scope).Some? ==> Newest(log, scope).value.t.expireIdx <= Done(log)
  {
    if log != [] {
      var pre, p := log[..|log| - 1], log[|log| - 1];
      HistoryScope(ttl, pre, scope);
      PutScope(ttl, After(ttl, pre), scope, Newest(pre, scope), p);
    }
  }

  lemma PutScope(ttl: int, s: Store, scope: Scope, newest: Option<PutCall>, p: PutCall)
    requires ScopeState(ttl, s, scope, newest) && Ordered(p.t) && Clean(s, p.key, p.t) && p.key.cid != ""
    requires newest.Some? ==> newest.value.t.expireIdx <= p.t.hset
    requires newest.Some? && p.key.scope == scope ==> !Less(p.key.cid, newest.value.key.cid)
    ensures ScopeState(ttl, PutStore(s, ttl, p.key, p.saved, p.t), scope,
                       if p.key.scope == scope then Some(p) else newest)
  {
    if p.key.scope == scope {
      LessIrreflexive(p.key.cid);
      if newest.Some? {
        forall c | c in s.idx[scope].value ensures !Less(p.key.cid, c) {
          var q := newest.value.key.cid;
          LessTotal(q, p.key.cid);
          if Less(p.key.cid, c) && Less(q, p.key.cid) { LessTransitive(q, p.key.cid, c); }
        }
      }
    }
  }

  // ---------------------------------------------------------------- lookups

  const NEWER: (string, string) -> bool := (a, b) => Less(b, a)

  /** `sorted(ids, reverse=True)` */
  ghost function Descending(ids: set<string>): seq<string> { Sort(NEWER, Listing(ids)) }

  lemma NewerOrder()
    ensures Strict(NEWER)
    ensures forall s: seq<string> :: Comparable(NEWER, s)
  {
    forall a: string ensures !NEWER(a, a) { LessIrreflexive(a); }
    forall a: string, b: string, c: string | NEWER(a, b) && NEWER(b, c) ensures NEWER(a, c) { LessTransitive(c, b, a); }
    forall a: string, b: string ensures NEWER(a, b) || a == b || NEWER(b, a) { LessTotal(a, b); }
  }

  lemma DescendingSorts(ids: set<string>)
    ensures Ascending(NEWER, Descending(ids)) && forall x :: x in Descending(ids) <==> x in ids
  {
    NewerOrder();
    SortSorts(NEWER, Listing(ids));
  }

  /** `_latest`: the greatest id in the index. */
  ghost function Latest(s: Store, scope: Scope, now: int): Option<string> {
    var ids := GetOr(s.idx, scope, now, {});
    var sorted := Descending(ids);
    if sorted == [] then None else Some(sorted[0])
  }

  lemma LatestIs(s: Store, scope: Scope, now: int, c: string)
    requires c in GetOr(s.idx, scope, now, {}) && forall d | d in GetOr(s.idx, scope, now, {}) :: !Less(c, d)
    ensures Latest(s, scope, now) == Some(c)
  {
    var sorted := Descending(GetOr(s.idx, scope, now, {}));
    DescendingSorts(GetOr(s.idx, scope, now, {}));
    assert c in sorted;
    var k :| 0 <= k < |sorted| && sorted[k] == c;
    assert sorted[0] in sorted;
    HeadFirst(NEWER, sorted, k);
  }

  /** Every field held decodes. */
  predicate AllFields(ws: map<CpKey, Entry<map<string, PW.Row>>>) { forall k | k in ws :: PW.Fields(ws[k].value) }

  predicate Valid(s: Store) { AllFields(s.ws) }

  ghost function PendingOf(h: map<string, PW.Row>): seq<PW.Slot>
    requires PW.Fields(h)
  { PW.Pending(h, Listing(h.Keys)) }

  function ParentKey(scope: Scope, parent: string): Option<CpKey> {
    if parent == "" then None else Some(CpKey(scope, parent))
  }

  ghost function TupleOf(s: Store, key: CpKey, saved: Saved, now: int): Tuple
    requires Valid(s)
  {
    Tuple(key, saved.content, saved.md, ParentKey(key.scope, saved.parent), PendingOf(GetOr(s.ws, key, now, map[])))
  }

  /** `aget_tuple`; an empty id asks for the latest. */
  ghost function Lookup(s: Store, scope: Scope, cid: string, now: int): Option<Tuple>
    requires Valid(s)
  {
    var id := if cid == "" then Latest(s, scope, now) else Some(cid);
    if id.None? then None
    else
      var key := CpKey(scope, id.value);
      match Get(s.cps, key, now) case None => None case Some(saved) => Some(TupleOf(s, key, saved, now))
  }

  /** A store whose checkpoints and indexes are those of a history of puts, whatever pending
      writes it holds beside them. */
  predicate Follows(s: Store, ttl: int, log: seq<PutCall>) {
    s.cps == After(ttl, log).cps && s.idx == After(ttl, log).idx
  }

  /** A put as a lookup at `now` returns it. */
  ghost function Shown(s: Store, p: PutCall, now: int): Tuple
    requires Valid(s)
  {
    TupleOf(s, p.key, p.saved, now)
  }

  /** A lookup by id finds the thread's checkpoint of that id while it is unexpired, as it is
      stored; its parent is the checkpoint of the stored parent id in the same thread, and
      there is none exactly when no parent id is stored. */
  lemma LookupIs(s: Store, scope: Scope, cid: string, now: int)
    requires Valid(s) && cid != ""
    ensures var key, r := CpKey(scope, cid), Lookup(s, scope, cid, now);
            && (r.Some? <==> key in s.cps && (s.cps[key].deadline.Some? ==> now < s.cps[key].deadline.value))
            && (r.Some? ==>
                  && r.value.key == key && r.value.content == s.cps[key].value.content
                  && r.value.md == s.cps[key].value.md
                  && (r.value.parent.None? <==> s.cps[key].value.parent == "")
                  && (r.value.parent.Some? ==>
                        && r.value.parent.value.scope == scope
                        && r.value.parent.value.cid == s.cps[key].value.parent))
  {
    hide PendingOf, Latest;
  }

  /** A put that is not made again is found by its id until a TTL after it, in its own thread,
      with what was put and with a parent exactly when the put named one. */
  lemma PutReadsBack(ttl: int, log: seq<PutCall>, s: Store, i: nat, now: int)
    requires Puts(ttl, log) && Follows(s, ttl, log) && Valid(s) && i < |log| && log[i].key.cid != ""
    requires forall j | i < j < |log| :: log[j].key != log[i].key
    ensures var p := log[i];
            var r := Lookup(s, p.key.scope, p.key.cid, now);
            && (r.Some? <==> now < p.t.expireCp + ttl)
            && (r.Some? ==>
                  && r.value.key == p.key && r.value.content == p.saved.content && r.value.md == p.saved.md
                  && (r.value.parent.None? <==> p.saved.parent == "")
                  && (r.value.parent.Some? ==>
                        r.value.parent.value.scope == p.key.scope && r.value.parent.value.cid == p.saved.parent))
  {
    HistoryReadsBack(ttl, log, i);
    hide After, Puts, PendingOf, Latest;
  }

  /** The tuple that following parents `n` times from `t` leads to. */
  ghost function Ancestor(s: Store, t: Tuple, n: nat, now: int): Option<Tuple>
    requires Valid(s)
    decreases n
  {
    if n == 0 then Some(t)
    else if t.parent.None? then None
    else
      match Lookup(s, t.parent.value.scope, t.parent.value.cid, now)
      case None => None
      case Some(u) => Ancestor(s, u, n - 1, now)
  }

  /** `chain` indexes puts of one thread, each made from the one before it, none made again. */
  ghost predicate Lineage(log: seq<PutCall>, chain: seq<nat>) {
    && (forall a | 0 <= a < |chain| ::
          && chain[a] < |log| && log[chain[a]].key.cid != ""
          && forall j | chain[a] < j < |log| :: log[j].key != log[chain[a]].key)
    && (forall a | 0 < a < |chain| ::
          && log[chain[a]].key.scope == log[chain[a - 1]].key.scope
          && log[chain[a]].saved.parent == log[chain[a - 1]].key.cid)
  }

  /** While the whole lineage is alive, following parents from its last checkpoint visits every
      earlier one in turn, as it was put. */
  lemma {:induction false} ParentsFound(ttl: int, log: seq<PutCall>, s: Store, chain: seq<nat>, n: nat, now: int)
    requires Puts(ttl, log) && Follows(s, ttl, log) && Valid(s)
    requires n < |chain| && Lineage(log, chain)
    requires forall a | 0 <= a < |chain| :: now < log[chain[a]].t.expireCp + ttl
    ensures var last, p := log[chain[|chain| - 1]], log[chain[|chain| - 1 - n]];
            var start := Lookup(s, last.key.scope, last.key.cid, now);
            && start.Some?
            && var r := Ancestor(s, start.value, n, now);
               r.Some? && r.value.key == p.key && r.value.content == p.saved.content && r.value.md == p.saved.md
               && (n == |chain| - 1 && p.saved.parent == "" ==> r.value.parent.None?)
  {
    hide After, Puts, Lookup;
    var last := |chain| - 1;
    PutReadsBack(ttl, log, s, chain[last], now);
    if n > 0 { ParentsFound(ttl, log, s, chain[..last], n - 1, now); }
  }

  /** With ids put in increasing order a lookup without an id returns the newest put, as it
      was put and with the writes pending on it, and nothing exactly when every checkpoint of
      the scope has expired. */
  lemma LatestIsNewest(ttl: int, log: seq<PutCall>, s: Store, scope: Scope, now: int)
    requires Puts(ttl, log) && Increasing(log) && (log != [] ==> Done(log) <= now)
    requires Follows(s, ttl, log) && Valid(s)
    ensures Lookup(s, scope, "", now).None? <==>
              forall k | k in s.cps && k.scope == scope :: Get(s.cps, k, now) == None
    ensures Lookup(s, scope, "", now).Some? ==>
              Newest(log, scope).Some? && Lookup(s, scope, "", now).value == Shown(s, Newest(log, scope).value, now)
  {
    HistoryScope(ttl, log, scope);
    hide After, PendingOf, Less, Latest;
    match Newest(log, scope) {
      case None =>
        EmptyLatest(s, scope, now);
      case Some(p) =>
        if Live(s.idx[scope], now) {
          LatestIs(s, scope, now, p.key.cid);
        } else {
          assert Get(s.cps, p.key, now) == None;
          EmptyLatest(s, scope, now);
        }
    }
  }

  /** Until its scope sees another put, the newest put reads back as it was put. */
  lemma {:induction false} NewestKept(ttl: int, log: seq<PutCall>, scope: Scope)
    requires Puts(ttl, log) && Newest(log, scope).Some?
    ensures var p := Newest(log, scope).value;
            && p.key.scope == scope && log != [] && p.t.expireIdx <= Done(log) && Ordered(p.t)
            && p.key in After(ttl, log).cps
            && After(ttl, log).cps[p.key] == Entry(p.saved, Some(p.t.expireCp + ttl))
  {
    var pre, p := log[..|log| - 1], log[|log| - 1];
    if p.key.scope != scope { NewestKept(ttl, pre, scope); }
  }

  /** In whatever order ids were put: while the newest put of a scope is alive, a lookup without
      an id returns it exactly when no id in the scope's index exceeds its own. */
  lemma NewestFoundIff(ttl: int, log: seq<PutCall>, s: Store, scope: Scope, now: int)
    requires Puts(ttl, log) && Follows(s, ttl, log) && Valid(s) && Newest(log, scope).Some?
    requires log != [] && Done(log) <= now < Newest(log, scope).value.t.expireCp + ttl
    requires Newest(log, scope).value.key.cid != ""
    ensures var p := Newest(log, scope).value;
            Lookup(s, scope, "", now) == Some(Shown(s, p, now))
            <==> forall c | c in GetOr(s.idx, scope, now, {}) :: !Less(p.key.cid, c)
  {
    var p := Newest(log, scope).value;
    NewestKept(ttl, log, scope);
    HistoryCovered(ttl, log, now);
    IndexedNow(s, ttl, p.key, now);
    hide After, Puts, PendingOf, Less, Latest, Newest, IndexCovers, GetOr;
    var ids := GetOr(s.idx, scope, now, {});
    if forall c | c in ids :: !Less(p.key.cid, c) {
      LatestIs(s, scope, now, p.key.cid);
    }
    if Latest(s, scope, now) == Some(p.key.cid) {
      forall c | c in ids ensures !Less(p.key.cid, c) { LatestExceeds(s, scope, now, p.key.cid, c); }
    }
  }

  lemma IndexedNow(s: Store, ttl: int, key: CpKey, now: int)
    requires IndexCovers(s, ttl, now) && key in s.cps && Live(s.cps[key], now)
    ensures key.cid in GetOr(s.idx, key.scope, now, {})
  {}

  lemma LatestExceeds(s: Store, scope: Scope, now: int, latest: string, c: string)
    requires Latest(s, scope, now) == Some(latest) && c in GetOr(s.idx, scope, now, {})
    ensures !Less(latest, c)
  {
    var ids := GetOr(s.idx, scope, now, {});
    var sorted := Descending(ids);
    DescendingSorts(ids);
    assert c in sorted;
    var k :| 0 <= k < |sorted| && sorted[k] == c;
    HeadFirst(NEWER, sorted, k);
    LessIrreflexive(c);
    if Less(latest, c) && k > 0 { LessTransitive(latest, c, latest); LessIrreflexive(latest); }
    hide Less, Descending;
  }

  lemma EmptyLatest(s: Store, scope: Scope, now: int)
    requires GetOr(s.idx, scope, now, {}) == {}
    ensures Latest(s, scope, now) == None
  {
    DescendingSorts({});
    HeadIsMember(Descending({}));
  }

  lemma {:induction false} NoWrites(ttl: int, log: seq<PutCall>)
    ensures After(ttl, log).ws == map[]
    ensures PendingOf(map[]) == []
  {
    if log != [] { NoWrites(ttl, log[..|log| - 1]); }
    var none: map<string, PW.Row> := map[];
    HeadIsMember(Listing(none.Keys));
  }

  const GREATER := PutCall(CpKey(Scope("t", ""), "b"), Saved("1", map[], ""), Stamps(0, 0, 0, 0))
  const LESSER := PutCall(CpKey(Scope("t", ""), "a"), Saved("2", map[], "b"), Stamps(50, 50, 50, 50))

  /** Ids put out of order break it: the greatest id's checkpoint expires first, and then
      nothing is found although a newer put is alive. */
  lemma UnorderedIdsHideLive()
    ensures var log := [GREATER, LESSER];
            && Puts(100, log) && !Increasing(log) && Valid(After(100, log))
            && Get(After(100, log).cps, LESSER.key, 120) == Some(LESSER.saved)
            && Lookup(After(100, log), LESSER.key.scope, "", 120) == None
  {
    UnorderedPuts();
    var log := [GREATER, LESSER];
    NoWrites(100, log);
    hide PutStore, After, Puts, Increasing, Latest;
    var s := After(100, log);
    LessIrreflexive("b");
    assert !Less("b", "a");
    hide Less;
    assert GetOr(s.idx, LESSER.key.scope, 120, {}) == {"b", "a"};
    LatestIs(s, LESSER.key.scope, 120, "b");
    assert Get(s.cps, GREATER.key, 120) == None;
  }

  lemma UnorderedPuts()
    ensures var log := [GREATER, LESSER];
            var s := After(100, log);
            && Puts(100, log) && !Increasing(log)
            && LESSER.key in s.cps && GREATER.key in s.cps && LESSER.key.scope in s.idx
            && s.cps[LESSER.key] == Entry(LESSER.saved, Some(150))
            && s.cps[GREATER.key] == Entry(GREATER.saved, Some(100))
            && s.idx[LESSER.key.scope] == Entry({"b", "a"}, Some(150))
  {
    var p, q := GREATER, LESSER;
    var s0 := Store(map[], map[], map[]);
    var s1 := PutStore(s0, 100, p.key, p.saved, p.t);
    assert [p, q][..1] == [p] && [p][..0] == [];
    assert After(100, []) == s0 && After(100, [p]) == s1;
    assert After(100, [p, q]) == PutStore(s1, 100, q.key, q.saved, q.t);
    FirstPut(s0, 100, p.key, p.saved, 0);
    LaterPut(s1, 100, q.key, p.key, q.saved, 0, 50);
    hide PutStore, After;
    assert Puts(100, []) && Puts(100, [p]);
    assert Newest([p], q.key.scope) == Some(p);
  }

  lemma FirstPut(s: Store, ttl: int, key: CpKey, saved: Saved, at: int)
    requires key.scope !in s.idx && key !in s.cps && ttl > 0
    ensures var s' := PutStore(s, ttl, key, saved, Stamps(at, at, at, at));
            s'.cps[key] == Entry(saved, Some(at + ttl)) && s'.idx[key.scope] == Entry({key.cid}, Some(at + ttl))
  {
    assert {} + {key.cid} == {key.cid};
  }

  lemma LaterPut(s: Store, ttl: int, key: CpKey, other: CpKey, saved: Saved, before: int, at: int)
    requires other.scope == key.scope && key != other && other in s.cps && key !in s.cps && 0 <= at - before < ttl
    requires key.scope in s.idx && s.idx[key.scope] == Entry({other.cid}, Some(before + ttl))
    ensures var s' := PutStore(s, ttl, key, saved, Stamps(at, at, at, at));
            && s'.cps[key] == Entry(saved, Some(at + ttl)) && s'.cps[other] == s.cps[other]
            && s'.idx[key.scope] == Entry({other.cid, key.cid}, Some(at + ttl))
  {
    assert {other.cid} + {key.cid} == {other.cid, key.cid};
  }

  // ---------------------------------------------------------------- listing

  /** A listing's own id (or ""), the id it must precede (or ""), and the metadata filter. */
  datatype Query = Query(only: string, before: string, filter: Metadata)

  predicate Wanted(q: Query, cid: string) {
    (q.only == "" || cid == q.only) && (q.before == "" || Less(cid, q.before))
  }

  /** `metadata.get(k) == v` for every item of the filter */
  predicate Matches(filter: Metadata, md: Metadata) {
    forall k | k in filter :: (if k in md then md[k] else Null) == filter[k]
  }

  ghost function Hit(s: Store, scope: Scope, q: Query, cid: string, now: int): seq<Tuple>
    requires Valid(s)
  {
    if !Wanted(q, cid) then []
    else match Lookup(s, scope, cid, now)
         case None => []
         case Some(t) => if Matches(q.filter, t.md) then [t] else []
  }

  ghost function Hits(s: Store, scope: Scope, q: Query, ids: seq<string>, now: int): seq<Tuple>
    requires Valid(s)
  {
    if ids == [] then []
    else Hits(s, scope, q, ids[..|ids| - 1], now) + Hit(s, scope, q, ids[|ids| - 1], now)
  }

  function Limited<T>(limit: Option<int>, full: seq<T>): seq<T> {
    if limit.None? || limit.value >= |full| then full
    else if limit.value <= 0 then [] else full[..limit.value]
  }

  /** `alist` */
  ghost function ListOf(s: Store, scope: Scope, q: Query, limit: Option<int>, now: int): seq<Tuple>
    requires Valid(s)
  {
    Limited(limit, Hits(s, scope, q, Descending(GetOr(s.idx, scope, now, {})), now))
  }

  /** The checkpoint at `k` is alive and answers the query. */
  predicate Answers(s: Store, scope: Scope, q: Query, k: CpKey, now: int) {
    k.scope == scope && Wanted(q, k.cid) && Get(s.cps, k, now).Some? && Matches(q.filter, Get(s.cps, k, now).value.md)
  }

  ghost predicate HitsExactly(s: Store, scope: Scope, q: Query, ids: seq<string>, now: int, r: seq<Tuple>)
    requires Valid(s)
  {
    && (forall i, j :: 0 <= i < j < |r| ==> Less(r[j].key.cid, r[i].key.cid))
    && (forall t :: t in r ==>
          && t.key.cid in ids && Answers(s, scope, q, t.key, now)
          && t == TupleOf(s, t.key, Get(s.cps, t.key, now).value, now))
    && (forall k :: Answers(s, scope, q, k, now) && k.cid in ids ==> exists t :: t in r && t.key == k)
  }

  lemma HitIs(s: Store, scope: Scope, q: Query, cid: string, now: int)
    requires Valid(s) && cid != ""
    ensures var k, h := CpKey(scope, cid), Hit(s, scope, q, cid, now);
            if Answers(s, scope, q, k, now)
            then |h| == 1 && h[0].key == k && h[0] == TupleOf(s, k, Get(s.cps, k, now).value, now)
            else h == []
  {
    hide Wanted, Matches, PendingOf;
  }

  lemma AnswersScope(s: Store, scope: Scope, q: Query, k: CpKey, now: int)
    requires Answers(s, scope, q, k, now)
    ensures k == CpKey(scope, k.cid)
  {}

  /** Written out: in the scope, the one id asked for if any, before the given one if any,
      alive, and for every item of the filter holding its value or, for a null, none. */
  lemma AnswersMeans(s: Store, scope: Scope, q: Query, k: CpKey, now: int)
    ensures Answers(s, scope, q, k, now)
            <==> && k.scope == scope && (q.only == "" || q.only == k.cid)
                 && (q.before != "" ==> Less(k.cid, q.before))
                 && k in s.cps && (s.cps[k].deadline.Some? ==> now < s.cps[k].deadline.value)
                 && forall f | f in q.filter ::
                      var md := s.cps[k].value.md;
                      if q.filter[f] == Null then f !in md || md[f] == Null else f in md && md[f] == q.filter[f]
  {
    hide Less;
  }

  /** An older id that answers comes last. */
  lemma HitAdded(s: Store, scope: Scope, q: Query, pre: seq<string>, last: string, now: int, r: seq<Tuple>, t: Tuple)
    requires Valid(s) && HitsExactly(s, scope, q, pre, now, r) && forall c :: c in pre ==> Less(last, c)
    requires t.key == CpKey(scope, last) && Answers(s, scope, q, t.key, now)
    requires t == TupleOf(s, t.key, Get(s.cps, t.key, now).value, now)
    ensures HitsExactly(s, scope, q, pre + [last], now, r + [t])
  {
    hide TupleOf, Less, Matches, Wanted;
    forall i | 0 <= i < |r| ensures r[i].key.cid in pre { assert r[i] in r; }
    forall k | Answers(s, scope, q, k, now) && k.cid in pre + [last] ensures exists u :: u in r + [t] && u.key == k {
      AnswersScope(s, scope, q, k, now);
      if k.cid in pre {
        var u :| u in r && u.key == k;
        assert u in r + [t];
      } else {
        assert (r + [t])[|r|] == t;
      }
    }
  }

  lemma HitSkipped(s: Store, scope: Scope, q: Query, pre: seq<string>, last: string, now: int, r: seq<Tuple>)
    requires Valid(s) && HitsExactly(s, scope, q, pre, now, r) && !Answers(s, scope, q, CpKey(scope, last), now)
    ensures HitsExactly(s, scope, q, pre + [last], now, r)
  {
    hide TupleOf, Less, Matches, Wanted;
    forall k | Answers(s, scope, q, k, now) ensures k.cid != last { AnswersScope(s, scope, q, k, now); }
  }

  lemma {:induction false} HitsAre(s: Store, scope: Scope, q: Query, ids: seq<string>, now: int)
    requires Valid(s) && Ascending(NEWER, ids) && "" !in ids
    ensures HitsExactly(s, scope, q, ids, now, Hits(s, scope, q, ids, now))
  {
    if ids != [] {
      var n := |ids| - 1;
      var pre, last := ids[..n], ids[n];
      assert ids == pre + [last] && last in ids;
      HitsAre(s, scope, q, pre, now);
      HitIs(s, scope, q, last, now);
      var r, h := Hits(s, scope, q, pre, now), Hit(s, scope, q, last, now);
      forall c | c in pre ensures Less(last, c) {
        var k :| 0 <= k < n && pre[k] == c;
        assert NEWER(ids[k], ids[n]);
      }
      hide Hit, HitsExactly, Answers, TupleOf, Less;
      if h == [] {
        HitSkipped(s, scope, q, pre, last, now, r);
        assert r + [] == r;
      } else {
        HitAdded(s, scope, q, pre, last, now, r, h[0]);
        assert h == [h[0]];
      }
    }
  }

  /** The listing is the first `limit` of: every unexpired checkpoint of the scope that
      precedes `before` and matches, newest id first, each once and as stored. */
  lemma ListExact(s: Store, ttl: int, scope: Scope, q: Query, limit: Option<int>, now: int)
    requires Valid(s) && IndexCovers(s, ttl, now) && "" !in GetOr(s.idx, scope, now, {})
    ensures var full := ListOf(s, scope, q, None, now);
            && ListOf(s, scope, q, limit, now) <= full
            && |ListOf(s, scope, q, limit, now)|
               == (if limit.None? || limit.value > |full| then |full| else if limit.value < 0 then 0 else limit.value)
            && (forall i, j :: 0 <= i < j < |full| ==> Less(full[j].key.cid, full[i].key.cid))
            && (forall k :: Answers(s, scope, q, k, now) <==> exists t :: t in full && t.key == k)
            && (forall t :: t in full ==> Answers(s, scope, q, t.key, now)
                                          && t == TupleOf(s, t.key, Get(s.cps, t.key, now).value, now))
  {
    var ids := Descending(GetOr(s.idx, scope, now, {}));
    DescendingSorts(GetOr(s.idx, scope, now, {}));
    HitsAre(s, scope, q, ids, now);
    var full := Hits(s, scope, q, ids, now);
    forall k | Answers(s, scope, q, k, now) ensures k.cid in ids {
      assert k in s.cps && Live(s.cps[k], now);
    }
    assert ListOf(s, scope, q, limit, now) == Limited(limit, full);
  }
}
