/** Whole runs of the saver of doci/workflows/checkpoint.py: puts and batches of pending writes
    in any order, on any checkpoints of any threads. */
module SaverRuns {
  import opened Checkpoints
  import opened Keyspace
  import opened Options
  import opened ValkeySaver
  import PW = PendingWrites

  datatype Call = Put(p: PutCall) | Writes(key: CpKey, w: WriteCall)

  function StoreAfter(index: map<string, int>, ttl: int, calls: seq<Call>): Store {
    if calls == [] then Store(map[], map[], map[])
    else
      var s := StoreAfter(index, ttl, calls[..|calls| - 1]);
      match calls[|calls| - 1]
      case Put(p) => PutStore(s, ttl, p.key, p.saved, p.t)
      case Writes(key, w) => s.(ws := WritesAfter(index, ttl, s.ws, key, w.b, w.now))
  }

  function PutsOf(calls: seq<Call>): seq<PutCall> {
    if calls == [] then []
    else PutsOf(calls[..|calls| - 1]) + match calls[|calls| - 1] case Put(p) => [p] case Writes(_, _) => []
  }

  /** The batches written to one checkpoint. */
  function WritesOf(calls: seq<Call>, key: CpKey): seq<WriteCall> {
    if calls == [] then []
    else
      WritesOf(calls[..|calls| - 1], key)
      + match calls[|calls| - 1] case Put(_) => [] case Writes(k, w) => if k == key then [w] else []
  }

  lemma PutFollows(a: Store, b: Store, ttl: int, p: PutCall)
    requires a.cps == b.cps && a.idx == b.idx
    ensures var x, y := PutStore(a, ttl, p.key, p.saved, p.t), PutStore(b, ttl, p.key, p.saved, p.t);
            x.cps == y.cps && x.idx == y.idx && x.ws == a.ws
  {}

  /** Writes leave checkpoints and indexes alone, and puts leave writes alone. */
  lemma {:induction false} RunFollows(index: map<string, int>, ttl: int, calls: seq<Call>)
    ensures Follows(StoreAfter(index, ttl, calls), ttl, PutsOf(calls))
    ensures Valid(StoreAfter(index, ttl, calls))
  {
    if calls != [] {
      var pre := calls[..|calls| - 1];
      var s := StoreAfter(index, ttl, pre);
      RunFollows(index, ttl, pre);
      hide WritesAfter, PutStore, AllFields;
      match calls[|calls| - 1] {
        case Put(p) =>
          assert PutsOf(calls)[..|PutsOf(calls)| - 1] == PutsOf(pre);
          PutFollows(s, After(ttl, PutsOf(pre)), ttl, p);
        case Writes(key, w) =>
          assert PutsOf(calls) == PutsOf(pre);
          WritesValid(index, ttl, s.ws, key, w.b, w.now);
      }
    }
  }

  /** What one checkpoint's write key holds depends on its own batches alone. */
  lemma {:induction false} OwnWrites(index: map<string, int>, ttl: int, calls: seq<Call>, key: CpKey)
    ensures var ws, own := StoreAfter(index, ttl, calls).ws, WritesAfterAll(index, ttl, key, WritesOf(calls, key));
            (key in ws <==> key in own) && (key in ws ==> ws[key] == own[key])
  {
    if calls != [] {
      var pre := calls[..|calls| - 1];
      OwnWrites(index, ttl, pre, key);
      var ws, own := StoreAfter(index, ttl, pre).ws, WritesAfterAll(index, ttl, key, WritesOf(pre, key));
      match calls[|calls| - 1] {
        case Put(_) =>
          assert WritesOf(calls, key) == WritesOf(pre, key);
        case Writes(k, w) =>
          if k == key {
            assert WritesOf(calls, key)[..|WritesOf(calls, key)| - 1] == WritesOf(pre, key);
            SameEntry(index, ttl, ws, own, key, w);
          } else {
            assert WritesOf(calls, key) == WritesOf(pre, key);
            OtherEntry(index, ttl, ws, k, w, key);
          }
      }
      hide WritesAfter;
    }
  }

  lemma SameEntry(index: map<string, int>, ttl: int, a: map<CpKey, Entry<map<string, PW.Row>>>,
                  b: map<CpKey, Entry<map<string, PW.Row>>>, key: CpKey, w: WriteCall)
    requires (key in a <==> key in b) && (key in a ==> a[key] == b[key])
    ensures var x, y := WritesAfter(index, ttl, a, key, w.b, w.now), WritesAfter(index, ttl, b, key, w.b, w.now);
            (key in x <==> key in y) && (key in x ==> x[key] == y[key])
  {
    hide Wrote, PW.ApplyBatch;
  }

  lemma OtherEntry(index: map<string, int>, ttl: int, ws: map<CpKey, Entry<map<string, PW.Row>>>, k: CpKey, w: WriteCall,
                   key: CpKey)
    requires k != key
    ensures var x := WritesAfter(index, ttl, ws, k, w.b, w.now);
            (key in x <==> key in ws) && (key in x ==> x[key] == ws[key])
  {
    hide Wrote, PW.ApplyBatch;
  }

  /** The checkpoint's batches, and the read at `now`, each come less than a TTL after the last
      batch that wrote anything. */
  predicate WritesAlive(index: map<string, int>, ttl: int, calls: seq<Call>, key: CpKey, now: int) {
    var own := WritesOf(calls, key);
    Timely(index, ttl, own) && (LastWrote(index, own).Some? ==> now < LastWrote(index, own).value + ttl)
  }

  /** The checkpoint's own batches applied in order. */
  function AppliedTo(index: map<string, int>, calls: seq<Call>, key: CpKey): map<string, PW.Row> {
    PW.ApplyAll(index, Batches(WritesOf(calls, key)))
  }

  /** The writes pending on a checkpoint are those, whenever its batches were timely, until a
      TTL after the last that wrote and not from then on. */
  lemma PendingApplied(index: map<string, int>, ttl: int, calls: seq<Call>, key: CpKey, now: int)
    requires Timely(index, ttl, WritesOf(calls, key))
    ensures GetOr(StoreAfter(index, ttl, calls).ws, key, now, map[])
         == if WritesAlive(index, ttl, calls, key, now) then AppliedTo(index, calls, key) else map[]
  {
    var own := WritesOf(calls, key);
    OwnWrites(index, ttl, calls, key);
    StaysLiveIff(index, ttl, key, own);
    LiveHashIsApplied(index, ttl, key, own);
    hide StoreAfter, WritesAfterAll, PW.ApplyAll, Batches, WritesOf, StaysLive, Timely, LastWrote;
  }

  /** In particular they are all of them when all its batches, and the read, fall within one
      TTL of each other. */
  lemma PendingInWindow(index: map<string, int>, ttl: int, calls: seq<Call>, key: CpKey, now: int)
    requires var own := WritesOf(calls, key);
             && (forall i, j | 0 <= i < j < |own| :: own[j].now < own[i].now + ttl)
             && (forall i | 0 <= i < |own| :: now < own[i].now + ttl)
    ensures WritesAlive(index, ttl, calls, key, now)
    ensures GetOr(StoreAfter(index, ttl, calls).ws, key, now, map[])
         == PW.ApplyAll(index, Batches(WritesOf(calls, key)))
  {
    hide StoreAfter, PW.ApplyAll, Batches, WritesOf, Timely, LastWrote;
    var own := WritesOf(calls, key);
    WindowTimely(index, ttl, own);
    LastWroteIsCall(index, own);
    PendingApplied(index, ttl, calls, key, now);
  }

  // ------------------------------------------------------- slots over a run

  lemma {:induction false} WritesOfGrows(calls: seq<Call>, key: CpKey, i: nat)
    requires i <= |calls|
    ensures WritesOf(calls[..i], key) <= WritesOf(calls, key)
    ensures i < |calls| && calls[i].Writes? && calls[i].key == key ==>
              var n := |WritesOf(calls[..i], key)|;
              n < |WritesOf(calls, key)| && WritesOf(calls, key)[n] == calls[i].w
  {
    if i == |calls| {
      assert calls[..i] == calls;
    } else {
      var pre := calls[..|calls| - 1];
      assert pre[..i] == calls[..i];
      WritesOfGrows(pre, key, i);
    }
  }

  /** The `m`-th batch of a checkpoint is some call of the run, the `m` before it made by then. */
  lemma {:induction false} WritesOfFrom(calls: seq<Call>, key: CpKey, m: nat) returns (j: nat)
    requires m < |WritesOf(calls, key)|
    ensures j < |calls| && calls[j] == Writes(key, WritesOf(calls, key)[m]) && |WritesOf(calls[..j], key)| == m
  {
    var pre := calls[..|calls| - 1];
    if m < |WritesOf(pre, key)| {
      j := WritesOfFrom(pre, key, m);
      assert pre[..j] == calls[..j];
    } else {
      j := |calls| - 1;
    }
  }

  lemma OrderKept(calls: seq<Call>, key: CpKey, i: nat, j: nat)
    requires i <= |calls| && j <= |calls| && |WritesOf(calls[..j], key)| < |WritesOf(calls[..i], key)|
    ensures j < i
  {
    if i <= j {
      assert calls[..j][..i] == calls[..i];
      WritesOfGrows(calls[..j], key, i);
    }
  }

  lemma {:induction false} BatchesAt(calls: seq<WriteCall>, m: nat)
    requires m < |calls|
    ensures Batches(calls)[m] == calls[m].b
  {
    if m < |calls| - 1 { BatchesAt(calls[..|calls| - 1], m); }
  }

  /** Over any run, while a checkpoint's writes are alive: the first call of a task to write an
      ordinary channel at position `k` leaves its row in the slot (task, k), whatever replays
      follow it. */
  lemma RunKeepsFirst(index: map<string, int>, ttl: int, calls: seq<Call>, key: CpKey, now: int, i: nat, k: nat)
    requires PW.Special(index) && WritesAlive(index, ttl, calls, key, now)
    requires i < |calls| && calls[i].Writes? && calls[i].key == key
    requires k < |calls[i].w.b.writes| && calls[i].w.b.writes[k].0 !in index
    requires forall j | 0 <= j < i && calls[j].Writes? && calls[j].key == key && calls[j].w.b.task == calls[i].w.b.task
                        && k < |calls[j].w.b.writes| :: calls[j].w.b.writes[k].0 in index
    ensures var h, b := GetOr(StoreAfter(index, ttl, calls).ws, key, now, map[]), calls[i].w.b;
            var f := PW.FieldText(b.task, k);
            f in h && h[f] == PW.Row(b.task, b.writes[k].0, b.writes[k].1, b.path)
  {
    hide StoreAfter, PW.ApplyAll, PW.FieldText, WritesAlive, WritesOf;
    var own, n := WritesOf(calls, key), |WritesOf(calls[..i], key)|;
    PendingAlive(index, ttl, calls, key, now);
    WritesOfGrows(calls, key, i);
    BatchesAt(own, n);
    forall m | 0 <= m < n ensures Batches(own)[m].task == calls[i].w.b.task && k < |Batches(own)[m].writes| ==>
                                    Batches(own)[m].writes[k].0 in index
    {
      var j := WritesOfFrom(calls, key, m);
      OrderKept(calls, key, i, j);
      BatchesAt(own, m);
    }
    PW.FirstWriteStands(index, Batches(own), n, k);
  }

  /** The last call of a task to write a special channel leaves its row in that channel's
      slot. */
  lemma RunKeepsLast(index: map<string, int>, ttl: int, calls: seq<Call>, key: CpKey, now: int, i: nat, k: nat)
    requires PW.Special(index) && WritesAlive(index, ttl, calls, key, now)
    requires i < |calls| && calls[i].Writes? && calls[i].key == key
    requires k < |calls[i].w.b.writes| && calls[i].w.b.writes[k].0 in index
    requires var b := calls[i].w.b;
             && (forall m | k < m < |b.writes| :: !SameSlot(index, b.writes[m].0, b.writes[k].0))
             && (forall j | i < j < |calls| && calls[j].Writes? && calls[j].key == key && calls[j].w.b.task == b.task ::
                   forall m | 0 <= m < |calls[j].w.b.writes| ::
                     !SameSlot(index, calls[j].w.b.writes[m].0, b.writes[k].0))
    ensures var h, b := GetOr(StoreAfter(index, ttl, calls).ws, key, now, map[]), calls[i].w.b;
            var f := PW.FieldText(b.task, index[b.writes[k].0]);
            f in h && h[f] == PW.Row(b.task, b.writes[k].0, b.writes[k].1, b.path)
  {
    hide StoreAfter, PW.ApplyAll, PW.FieldText, WritesAlive, WritesOf;
    var own, n, b := WritesOf(calls, key), |WritesOf(calls[..i], key)|, calls[i].w.b;
    PendingAlive(index, ttl, calls, key, now);
    WritesOfGrows(calls, key, i);
    BatchesAt(own, n);
    forall l, m | n < l < |own| && Batches(own)[l].task == b.task && 0 <= m < |Batches(own)[l].writes|
      ensures !SameSlot(index, Batches(own)[l].writes[m].0, b.writes[k].0)
    {
      var j := WritesOfFrom(calls, key, l);
      OrderKept(calls, key, j, i);
      BatchesAt(own, l);
    }
    PW.LastWriteStands(index, Batches(own), n, k);
  }

  /** Both channels are special and have one slot. */
  predicate SameSlot(index: map<string, int>, c: string, d: string) {
    c in index && d in index && index[c] == index[d]
  }

  lemma PendingAlive(index: map<string, int>, ttl: int, calls: seq<Call>, key: CpKey, now: int)
    requires WritesAlive(index, ttl, calls, key, now)
    ensures GetOr(StoreAfter(index, ttl, calls).ws, key, now, map[])
         == PW.ApplyAll(index, Batches(WritesOf(calls, key)))
  {
    PendingApplied(index, ttl, calls, key, now);
    hide StoreAfter, PW.ApplyAll, Timely, LastWrote, WritesOf;
  }

  /** A put shown with its own batches. */
  lemma ShownApplied(index: map<string, int>, ttl: int, calls: seq<Call>, p: PutCall, now: int)
    requires Valid(StoreAfter(index, ttl, calls)) && WritesAlive(index, ttl, calls, p.key, now)
    ensures PW.Fields(AppliedTo(index, calls, p.key))
    ensures Shown(StoreAfter(index, ttl, calls), p, now)
         == Tuple(p.key, p.saved.content, p.saved.md, ParentKey(p.key.scope, p.saved.parent),
                  PendingOf(AppliedTo(index, calls, p.key)))
  {
    PendingApplied(index, ttl, calls, p.key, now);
    NoFields();
    hide StoreAfter, AppliedTo, WritesAlive, PendingOf, PW.Fields;
  }

  /** Over any run of puts, ids increasing in each scope, and batches of writes: a lookup
      without an id returns the newest put with its own batches pending, and nothing exactly
      when every checkpoint of the scope has expired. */
  lemma RunFindsNewest(index: map<string, int>, ttl: int, calls: seq<Call>, scope: Scope, now: int)
    requires var puts := PutsOf(calls); Puts(ttl, puts) && Increasing(puts) && (puts != [] ==> Done(puts) <= now)
    ensures var s, newest := StoreAfter(index, ttl, calls), Newest(PutsOf(calls), scope);
            && Valid(s)
            && (Lookup(s, scope, "", now).None? <==>
                  forall k | k in s.cps && k.scope == scope :: Get(s.cps, k, now) == None)
            && (Lookup(s, scope, "", now).Some? ==>
                  newest.Some?
                  && var p := newest.value;
                     (WritesAlive(index, ttl, calls, p.key, now) ==>
                        && PW.Fields(AppliedTo(index, calls, p.key))
                        && Lookup(s, scope, "", now).value
                           == Tuple(p.key, p.saved.content, p.saved.md,
                                    if p.saved.parent == "" then None else Some(CpKey(p.key.scope, p.saved.parent)),
                                    PendingOf(AppliedTo(index, calls, p.key)))))
  {
    var s, puts := StoreAfter(index, ttl, calls), PutsOf(calls);
    RunFollows(index, ttl, calls);
    LatestIsNewest(ttl, puts, s, scope, now);
    hide StoreAfter, PutsOf, Lookup, Puts, Increasing, Valid, WritesAlive, AppliedTo, Shown;
    if Lookup(s, scope, "", now).Some? {
      var p := Newest(puts, scope).value;
      if WritesAlive(index, ttl, calls, p.key, now) { ShownApplied(index, ttl, calls, p, now); }
    }
  }
}
