/** The saver of doci/workflows/checkpoint.py as it runs: fields holding the expiring keys,
    rewritten by its methods, each proved against the store functions of Checkpoints. */
module ValkeySaver {
  import opened Checkpoints
  import opened Keyspace
  import opened Options
  import opened Sorting
  import PW = PendingWrites
  import Text

  /** The members of a set, each once, in whatever order the server yields them. */
  method Members<T(==, !new)>(s: set<T>) returns (r: seq<T>)
    ensures Distinct(r) && forall x :: x in r <==> x in s
  {
    r := [];
    var rest := s;
    while rest != {}
      invariant Distinct(r) && rest <= s && forall x :: x in r <==> x in s && x !in rest
      decreases rest
    {
      var x :| x in rest;
      r := r + [x];
      rest := rest - {x};
    }
  }

  /** Whether the first `n` writes of a batch write anything. */
  predicate Wrote(index: map<string, int>, h: map<string, PW.Row>, b: PW.Batch, n: nat)
    requires n <= |b.writes|
  {
    exists k | 0 <= k < n :: PW.SlotIndex(index, b.writes[k].0, k) < 0 || PW.FieldOf(index, b, k) !in h
  }

  /** `aput_writes` on the write keys: nothing written leaves the deadline alone. */
  function WritesAfter(index: map<string, int>, ttl: int, ws: map<CpKey, Entry<map<string, PW.Row>>>,
                       key: CpKey, b: PW.Batch, now: int): map<CpKey, Entry<map<string, PW.Row>>>
  {
    var h := GetOr(ws, key, now, map[]);
    if Wrote(index, h, b, |b.writes|)
    then Expire(Put(ws, key, PW.ApplyBatch(index, h, b), now), key, ttl, now)
    else ws
  }

  datatype WriteCall = WriteCall(b: PW.Batch, now: int)

  function WritesAfterAll(index: map<string, int>, ttl: int, key: CpKey, calls: seq<WriteCall>)
    : map<CpKey, Entry<map<string, PW.Row>>>
  {
    if calls == [] then map[]
    else
      var c := calls[|calls| - 1];
      WritesAfter(index, ttl, WritesAfterAll(index, ttl, key, calls[..|calls| - 1]), key, c.b, c.now)
  }

  /** The write key never lapses between the calls. */
  predicate StaysLive(index: map<string, int>, ttl: int, key: CpKey, calls: seq<WriteCall>) {
    calls == []
    || (var pre := calls[..|calls| - 1];
        && StaysLive(index, ttl, key, pre)
        && var ws := WritesAfterAll(index, ttl, key, pre);
           (key in ws ==> Live(ws[key], calls[|calls| - 1].now)))
  }

  function Batches(calls: seq<WriteCall>): (r: seq<PW.Batch>)
    ensures |r| == |calls|
  {
    if calls == [] then [] else Batches(calls[..|calls| - 1]) + [calls[|calls| - 1].b]
  }

  lemma {:induction false} NothingWritten(index: map<string, int>, h: map<string, PW.Row>, b: PW.Batch, n: nat)
    requires n <= |b.writes| && !Wrote(index, h, b, n)
    ensures PW.Applied(index, h, b, n) == h
  {
    hide PW.FieldText;
    if n > 0 {
      NothingWritten(index, h, b, n - 1);
      assert PW.FieldOf(index, b, n - 1) in h;
    }
  }

  function Held(ws: map<CpKey, Entry<map<string, PW.Row>>>, key: CpKey): map<string, PW.Row> {
    if key in ws then ws[key].value else map[]
  }

  lemma CallHolds(index: map<string, int>, ttl: int, ws: map<CpKey, Entry<map<string, PW.Row>>>,
                  key: CpKey, b: PW.Batch, now: int)
    requires key in ws ==> Live(ws[key], now)
    ensures Held(WritesAfter(index, ttl, ws, key, b, now), key) == PW.ApplyBatch(index, Held(ws, key), b)
  {
    if !Wrote(index, Held(ws, key), b, |b.writes|) { NothingWritten(index, Held(ws, key), b, |b.writes|); }
    hide Wrote, PW.Applied;
  }

  lemma {:induction false} LiveHashIsApplied(index: map<string, int>, ttl: int, key: CpKey, calls: seq<WriteCall>)
    requires StaysLive(index, ttl, key, calls)
    ensures Held(WritesAfterAll(index, ttl, key, calls), key) == PW.ApplyAll(index, Batches(calls))
  {
    hide WritesAfter, PW.ApplyBatch, Held;
    if calls == [] {
      NothingHeld(key);
    } else {
      var pre, c := calls[..|calls| - 1], calls[|calls| - 1];
      LiveHashIsApplied(index, ttl, key, pre);
      assert Batches(calls)[..|pre|] == Batches(pre);
      CallHolds(index, ttl, WritesAfterAll(index, ttl, key, pre), key, c.b, c.now);
    }
  }

  lemma NothingHeld(key: CpKey)
    ensures Held(map[], key) == map[]
  {}

  /** On a checkpoint whose write key stays live, after any calls and replays, each ordinary
      (task, position) slot holds its first write and each special-channel slot its last. */
  lemma LiveSlotsKeepFirstOrLast(index: map<string, int>, ttl: int, key: CpKey, calls: seq<WriteCall>,
                                 task: string, i: int, now: int)
    requires PW.Special(index) && StaysLive(index, ttl, key, calls)
    requires var ws := WritesAfterAll(index, ttl, key, calls); key in ws ==> Live(ws[key], now)
    ensures PW.Keeps(GetOr(WritesAfterAll(index, ttl, key, calls), key, now, map[]),
                     PW.FieldText(task, i), i, PW.Offers(index, Batches(calls), PW.FieldText(task, i)))
  {
    LiveHashIsApplied(index, ttl, key, calls);
    PW.SlotsKeepFirstOrLast(index, Batches(calls), task, i);
    hide PW.FieldText, PW.Offers, PW.ApplyAll;
  }

  // ------------------------------------------------------------ the deadline

  /** What a call does to the store.  One that writes anything, a special channel or a slot
      the key does not hold, leaves the applied batch there until `ttl` after it, and one that
      writes nothing leaves all as it was. */
  lemma CallRenews(index: map<string, int>, ttl: int, ws: map<CpKey, Entry<map<string, PW.Row>>>,
                   key: CpKey, b: PW.Batch, now: int)
    ensures var h, ws' := GetOr(ws, key, now, map[]), WritesAfter(index, ttl, ws, key, b, now);
            && ws' - {key} == ws - {key}
            && (if exists k | 0 <= k < |b.writes| ::
                     var i := (if b.writes[k].0 in index then index[b.writes[k].0] else k);
                     i < 0 || b.task + ":" + Text.ShowInt(i) !in h
                then key in ws' && ws'[key] == Entry(PW.ApplyBatch(index, h, b), Some(now + ttl))
                else ws' == ws)
  {
    hide PW.ApplyBatch, Text.ShowInt;
  }

  /** The applied batch of a call that wrote reads back for `ttl` seconds and no longer. */
  lemma ReadsForTtl(index: map<string, int>, ttl: int, ws: map<CpKey, Entry<map<string, PW.Row>>>,
                    key: CpKey, b: PW.Batch, now: int, k: nat, u: int)
    requires k < |b.writes| && u >= now
    requires var i := (if b.writes[k].0 in index then index[b.writes[k].0] else k);
             i < 0 || b.task + ":" + Text.ShowInt(i) !in GetOr(ws, key, now, map[])
    ensures Get(WritesAfter(index, ttl, ws, key, b, now), key, u)
         == if u < now + ttl then Some(PW.ApplyBatch(index, GetOr(ws, key, now, map[]), b)) else None
  {
    CallRenews(index, ttl, ws, key, b, now);
    hide WritesAfter, Text.ShowInt, PW.ApplyBatch;
  }

  /** When the last of the calls that wrote anything ran, the hash holding all batches before. */
  function LastWrote(index: map<string, int>, calls: seq<WriteCall>): Option<int> {
    if calls == [] then None
    else
      var pre, c := calls[..|calls| - 1], calls[|calls| - 1];
      if Wrote(index, PW.ApplyAll(index, Batches(pre)), c.b, |c.b.writes|) then Some(c.now) else LastWrote(index, pre)
  }

  /** Each call comes less than `ttl` after the last one that wrote. */
  predicate Timely(index: map<string, int>, ttl: int, calls: seq<WriteCall>) {
    calls == []
    || (var pre := calls[..|calls| - 1];
        && Timely(index, ttl, pre)
        && (LastWrote(index, pre).Some? ==> calls[|calls| - 1].now < LastWrote(index, pre).value + ttl))
  }

  /** The key's deadline is that of the last call that wrote. */
  predicate Dated(ws: map<CpKey, Entry<map<string, PW.Row>>>, key: CpKey, ttl: int, last: Option<int>) {
    match last
    case None => key !in ws
    case Some(at) => key in ws && ws[key].deadline == Some(at + ttl)
  }

  lemma CallDates(index: map<string, int>, ttl: int, ws: map<CpKey, Entry<map<string, PW.Row>>>,
                  key: CpKey, b: PW.Batch, now: int, last: Option<int>)
    requires Dated(ws, key, ttl, last) && (key in ws ==> Live(ws[key], now))
    ensures Dated(WritesAfter(index, ttl, ws, key, b, now), key, ttl,
                  if Wrote(index, Held(ws, key), b, |b.writes|) then Some(now) else last)
  {
    hide Wrote, PW.ApplyBatch;
  }

  /** The write key stays live exactly when every call is timely; its deadline is then the time
      of the last call that wrote plus the TTL, and there is no key while none has. */
  lemma {:induction false} StaysLiveIff(index: map<string, int>, ttl: int, key: CpKey, calls: seq<WriteCall>)
    ensures StaysLive(index, ttl, key, calls) <==> Timely(index, ttl, calls)
    ensures Timely(index, ttl, calls) ==>
              var ws := WritesAfterAll(index, ttl, key, calls);
              match LastWrote(index, calls)
              case None => key !in ws
              case Some(at) => key in ws && ws[key] == Entry(PW.ApplyAll(index, Batches(calls)), Some(at + ttl))
  {
    hide WritesAfter, Wrote, PW.ApplyAll, Batches;
    if calls != [] {
      var pre, c := calls[..|calls| - 1], calls[|calls| - 1];
      StaysLiveIff(index, ttl, key, pre);
      if StaysLive(index, ttl, key, calls) {
        LiveHashIsApplied(index, ttl, key, pre);
        LiveHashIsApplied(index, ttl, key, calls);
        CallDates(index, ttl, WritesAfterAll(index, ttl, key, pre), key, c.b, c.now, LastWrote(index, pre));
      }
    }
  }

  lemma {:induction false} LastWroteIsCall(index: map<string, int>, calls: seq<WriteCall>)
    ensures LastWrote(index, calls).Some? ==>
              exists i | 0 <= i < |calls| :: LastWrote(index, calls) == Some(calls[i].now)
  {
    hide Wrote, PW.ApplyAll, Batches;
    if calls != [] { LastWroteIsCall(index, calls[..|calls| - 1]); }
  }

  /** Calls that all fall within one TTL are timely. */
  lemma {:induction false} WindowTimely(index: map<string, int>, ttl: int, calls: seq<WriteCall>)
    requires forall i, j | 0 <= i < j < |calls| :: calls[j].now < calls[i].now + ttl
    ensures Timely(index, ttl, calls)
  {
    hide LastWrote;
    if calls != [] {
      var pre := calls[..|calls| - 1];
      WindowTimely(index, ttl, pre);
      LastWroteIsCall(index, pre);
    }
  }

  lemma NoneWrote(index: map<string, int>, h: map<string, PW.Row>, b: PW.Batch)
    ensures !Wrote(index, h, b, 0)
  {}

  lemma NoFields()
    ensures PW.Fields(map[])
  {}

  lemma WritesValid(index: map<string, int>, ttl: int, ws: map<CpKey, Entry<map<string, PW.Row>>>, key: CpKey,
                    b: PW.Batch, now: int)
    requires AllFields(ws)
    ensures AllFields(WritesAfter(index, ttl, ws, key, b, now))
  {
    hide PW.Fields, Wrote, PW.Applied;
    NoFields();
    PW.AppliedFields(index, GetOr(ws, key, now, map[]), b, |b.writes|);
  }

  lemma AppliedStep(index: map<string, int>, h: map<string, PW.Row>, b: PW.Batch, n: nat)
    requires n < |b.writes|
    ensures PW.Applied(index, h, b, n + 1)
         == (var before, f := PW.Applied(index, h, b, n), PW.FieldOf(index, b, n);
             if PW.SlotIndex(index, b.writes[n].0, n) >= 0 && f in h then before else before[f := PW.RowOf(b, n)])
  {
    hide PW.FieldOf, PW.SlotIndex;
  }

  lemma WroteStep(index: map<string, int>, h: map<string, PW.Row>, b: PW.Batch, n: nat)
    requires n < |b.writes|
    ensures Wrote(index, h, b, n + 1)
            <==> Wrote(index, h, b, n)
                 || PW.SlotIndex(index, b.writes[n].0, n) < 0 || PW.FieldOf(index, b, n) !in h
  {
    hide PW.FieldOf, PW.SlotIndex;
  }

  lemma HitsStep(s: Store, scope: Scope, q: Query, ids: seq<string>, n: nat, now: int)
    requires Valid(s) && n < |ids|
    ensures Hits(s, scope, q, ids[..n + 1], now) == Hits(s, scope, q, ids[..n], now) + Hit(s, scope, q, ids[n], now)
    ensures Hits(s, scope, q, ids[..n + 1], now) <= Hits(s, scope, q, ids, now)
  {
    assert ids[..n + 1][..n] == ids[..n];
    HitsPrefix(s, scope, q, ids, n + 1, now);
  }

  class ValkeySaver {
    var cps: map<CpKey, Entry<Saved>>
    var idx: map<Scope, Entry<set<string>>>
    var ws: map<CpKey, Entry<map<string, PW.Row>>>
    const ttl: int
    const index: map<string, int>

    constructor (ttl: int, index: map<string, int>)
      ensures this.ttl == ttl && this.index == index && State() == Store(map[], map[], map[])
    {
      this.ttl, this.index := ttl, index;
      cps, idx, ws := map[], map[], map[];
    }

    function State(): Store
      reads this
    { Store(cps, idx, ws) }

    /** HSET, EXPIRE, SADD, EXPIRE at the times of `t`. */
    method Aput(scope: Scope, cid: string, content: string, md: Metadata, parent: string, t: Stamps)
      returns (key: CpKey)
      modifies this
      ensures key == CpKey(scope, cid)
      ensures State() == PutStore(old(State()), ttl, key, Saved(content, md, parent), t)
    {
      key := CpKey(scope, cid);
      cps := Put(cps, key, Saved(content, md, parent), t.hset);
      cps := Expire(cps, key, ttl, t.expireCp);
      idx := Put(idx, scope, GetOr(idx, scope, t.sadd, {}) + {cid}, t.sadd);
      idx := Expire(idx, scope, ttl, t.expireIdx);
    }

    /** Queue the slots that are new or special, then send them and renew the deadline; with
        nothing queued nothing is sent. */
    method AputWrites(key: CpKey, writes: seq<(string, string)>, task: string, path: string, now: int)
      requires Valid(State())
      modifies this
      ensures State() == old(State()).(ws := WritesAfter(index, ttl, old(ws), key, PW.Batch(task, path, writes), now))
      ensures ws - {key} == old(ws) - {key}
      ensures var h := GetOr(old(ws), key, now, map[]);
              if exists k | 0 <= k < |writes| ::
                   var i := (if writes[k].0 in index then index[writes[k].0] else k);
                   i < 0 || task + ":" + Text.ShowInt(i) !in h
              then key in ws
                   && ws[key] == Entry(PW.ApplyBatch(index, h, PW.Batch(task, path, writes)), Some(now + ttl))
              else ws == old(ws)
      ensures Valid(State())
    {
      CallRenews(index, ttl, ws, key, PW.Batch(task, path, writes), now);
      hide PW.FieldText, Text.ShowInt, Wrote, PW.AfterLastColon;
      var h := GetOr(ws, key, now, map[]);
      var existing := h.Keys;
      var b := PW.Batch(task, path, writes);
      var piped := h;
      var wrote := false;
      NoneWrote(index, h, b);
      assert PW.Applied(index, h, b, 0) == h;
      WritesValid(index, ttl, ws, key, b, now);
      hide PW.Applied, PW.Fields, GetOr, Put, Expire;
      var i := 0;
      while i < |writes|
        invariant 0 <= i <= |writes|
        invariant piped == PW.Applied(index, h, b, i) && wrote == Wrote(index, h, b, i)
        invariant unchanged(this)
      {
        var widx := if writes[i].0 in index then index[writes[i].0] else i;
        var field := PW.FieldText(task, widx);
        assert widx == PW.SlotIndex(index, b.writes[i].0, i) && field == PW.FieldOf(index, b, i);
        WroteStep(index, h, b, i);
        AppliedStep(index, h, b, i);
        if !(widx >= 0 && field in existing) {
          piped := piped[field := PW.Row(task, writes[i].0, writes[i].1, path)];
          wrote := true;
        }
        i := i + 1;
      }
      if wrote {
        ws := Expire(Put(ws, key, piped, now), key, ttl, now);
      }
    }

    /** `_writes` */
    method Writes(key: CpKey, now: int) returns (r: seq<PW.Slot>)
      requires Valid(State())
      ensures r == PendingOf(GetOr(ws, key, now, map[]))
      ensures var h := GetOr(ws, key, now, map[]);
              && (forall a, b | 0 <= a < b < |r| ::
                    || Text.Less(r[a].row.task, r[b].row.task)
                    || (r[a].row.task == r[b].row.task && r[a].i < r[b].i))
              && forall s :: s in r <==> exists f | f in h :: s.row == h[f] && f == PW.FieldText(s.row.task, s.i)
    {
      var h := GetOr(ws, key, now, map[]);
      var fields := Members(h.Keys);
      PW.PendingIs(h, fields);
      PW.PendingDeterministic(h, fields, Listing(h.Keys));
      r := PW.Pending(h, fields);
    }

    /** `_latest`: the maximum of the index. */
    method LatestId(scope: Scope, now: int) returns (r: Option<string>)
      ensures r == Latest(State(), scope, now)
      ensures var ids := GetOr(idx, scope, now, {});
              && (r.None? <==> ids == {})
              && (r.Some? ==> r.value in ids && forall d | d in ids :: !Text.Less(r.value, d))
    {
      var ids := GetOr(idx, scope, now, {});
      if ids == {} {
        EmptyLatest(State(), scope, now);
        return None;
      }
      var max :| max in ids;
      var rest := ids - {max};
      Text.LessIrreflexive(max);
      while rest != {}
        invariant max in ids && rest <= ids && forall d | d in ids && d !in rest :: !Text.Less(max, d)
        decreases rest
      {
        var c :| c in rest;
        rest := rest - {c};
        if Text.Less(max, c) {
          forall d | d in ids && d !in rest ensures !Text.Less(c, d) {
            Text.LessIrreflexive(c);
            if d != c && Text.Less(c, d) { Text.LessTransitive(max, c, d); }
          }
          max := c;
        }
      }
      LatestIs(State(), scope, now, max);
      return Some(max);
    }

    method AgetTuple(scope: Scope, cid: string, now: int) returns (r: Option<Tuple>)
      requires Valid(State())
      ensures r == Lookup(State(), scope, cid, now)
    {
      var id := Some(cid);
      if cid == "" {
        id := LatestId(scope, now);
        if id.None? { return None; }
      }
      var key := CpKey(scope, id.value);
      var data := Get(cps, key, now);
      if data.None? { return None; }
      var pending := Writes(key, now);
      return Some(Tuple(key, data.value.content, data.value.md, ParentKey(scope, data.value.parent), pending));
    }

    method Alist(config: Option<Scope>, q: Query, limit: Option<int>, now: int) returns (r: seq<Tuple>)
      requires Valid(State())
      ensures r == if config.None? then [] else ListOf(State(), config.value, q, limit, now)
    {
      r := [];
      if config.None? { return; }
      var scope := config.value;
      var members := GetOr(idx, scope, now, {});
      var listed := Members(members);
      var ids := Sort(NEWER, listed);
      NewerOrder();
      SortUnique(NEWER, listed, Listing(members));
      assert ids == Descending(members);
      var left := limit;
      hide Limited, Descending, Lookup, Hits, Wanted, Matches, Valid, Sort;
      HitsNone(State(), scope, q, ids, now);
      var i := 0;
      while i < |ids|
        invariant 0 <= i <= |ids|
        invariant r == Hits(State(), scope, q, ids[..i], now)
        invariant limit.None? ==> left == None
        invariant limit.Some? ==> left.Some? && left.value == limit.value - |r| && (r != [] ==> left.value >= 0)
      {
        var cid := ids[i];
        HitsStep(State(), scope, q, ids, i, now);
        i := i + 1;
        if !Wanted(q, cid) { continue; }
        var tup := AgetTuple(scope, cid, now);
        if tup.None? { continue; }
        if !Matches(q.filter, tup.value.md) { continue; }
        if left.Some? {
          if left.value <= 0 {
            LimitReached(limit.value, r, Hits(State(), scope, q, ids, now));
            return;
          }
          left := Some(left.value - 1);
        }
        r := r + [tup.value];
      }
      assert ids[..|ids|] == ids;
      LimitAmple(limit, r);
    }
  }

  lemma LimitReached<T>(limit: int, r: seq<T>, full: seq<T>)
    requires r <= full && |r| < |full| && limit <= |r| && (r != [] ==> limit >= |r|)
    ensures Limited(Some(limit), full) == r
  {}

  lemma LimitAmple<T>(limit: Option<int>, full: seq<T>)
    requires limit.Some? && full != [] ==> limit.value >= |full|
    ensures Limited(limit, full) == full
  {}

  lemma HitsNone(s: Store, scope: Scope, q: Query, ids: seq<string>, now: int)
    requires Valid(s)
    ensures Hits(s, scope, q, ids[..0], now) == []
  {}

  /** Later ids only add hits at the end. */
  lemma {:induction false} HitsPrefix(s: Store, scope: Scope, q: Query, ids: seq<string>, n: nat, now: int)
    requires Valid(s) && n <= |ids|
    ensures Hits(s, scope, q, ids[..n], now) <= Hits(s, scope, q, ids, now)
  {
    if n < |ids| {
      HitsPrefix(s, scope, q, ids[..|ids| - 1], n, now);
      assert ids[..|ids| - 1][..n] == ids[..n];
    } else {
      assert ids[..n] == ids;
    }
  }
}
