/** Concurrent `ensure_part` runs (doci/documents/service.py) as a state machine: any number
    of workers, each crashing or stepping between its look-up, render, upload, transaction
    and re-read, in any interleaving.  The transaction is one step. */
module EnsurePartRuns {
  import opened Documents
  import opened Options

  datatype Pc =
    | Start
    | Rendering
    | Rendered(content: string)
    | Uploaded(content: string)
    | Raced
    | Returned(part: nat)
    | Crashed

  /** A run for one region, with whether it ever rendered or uploaded. */
  datatype Worker = Worker(doc: string, locator: string, pc: Pc, rendered: bool, uploaded: bool)

  datatype World = World(db: Db, workers: map<nat, Worker>)

  datatype Action =
    | Spawn(doc: string, locator: string)
    | Check                        // the up-front look-up
    | Render(content: string)
    | Store                        // the object upload
    | Commit(uuid: nat, part: nat) // the transaction, with the row ids it would draw
    | Reread                       // after losing the insert
    | Crash

  datatype Step = Step(w: nat, act: Action)

  predicate Enabled(s: World, step: Step) {
    if step.act.Spawn? then step.w !in s.workers
    else
      && step.w in s.workers
      && var pc := s.workers[step.w].pc;
         match step.act
         case Spawn(_, _) => false
         case Check => pc.Start?
         case Render(_) => pc.Rendering?
         case Store => pc.Rendered?
         case Commit(uuid, part) => pc.Uploaded? && uuid !in s.db.media && part !in s.db.parts
         case Reread => pc.Raced?
         case Crash => !pc.Returned?
  }

  function At(s: World, w: nat, worker: Worker): World { s.(workers := s.workers[w := worker]) }

  ghost function Next(s: World, step: Step): World
    requires Enabled(s, step)
  {
    var w := step.w;
    if step.act.Spawn? then At(s, w, Worker(step.act.doc, step.act.locator, Start, false, false))
    else
      var me := s.workers[w];
      match step.act
      case Check =>
        var found := PartAt(s.db.parts, me.doc, me.locator);
        At(s, w, me.(pc := if HasPart(s.db.parts, found) then Returned(found.value) else Rendering))
      case Render(content) => At(s, w, me.(pc := Rendered(content), rendered := true))
      case Store =>
        At(s.(db := s.db.(objects := s.db.objects[PartKey(me.doc, me.locator) := me.pc.content])), w,
           me.(pc := Uploaded(me.pc.content), uploaded := true))
      case Commit(uuid, part) =>
        var (db, row) := PartTxn(s.db, me.doc, me.locator, |me.pc.content|, uuid, part);
        At(s.(db := db), w, me.(pc := if me.doc !in s.db.docs then Crashed
                                      else if row.Some? then Returned(row.value) else Raced))
      case Reread =>
        var found := PartAt(s.db.parts, me.doc, me.locator);
        At(s, w, me.(pc := if found.Some? then Returned(found.value) else Crashed))
      case Crash => At(s, w, me.(pc := Crashed))
  }

  // -------------------------------------------------------------- invariant

  /** The part has its blob's row, under its own key with the object stored, or it is the
      document's original. */
  predicate Backed(db: Db, p: nat)
    requires p in db.parts
  {
    var part := db.parts[p];
    && part.media.Some? && part.media.value in db.media
    && ((db.media[part.media.value].key == PartKey(part.doc, part.locator)
         && PartKey(part.doc, part.locator) in db.objects)
        || (part.doc in db.docs && db.docs[part.doc].media == part.media.value))
  }

  ghost predicate Sound(db: Db) {
    UniqueKeys(db.media) && UniqueParts(db.parts) && forall p :: p in db.parts ==> Backed(db, p)
  }

  ghost predicate WorkerOk(db: Db, me: Worker) {
    && (me.uploaded ==> me.rendered)
    && match me.pc
       case Start => !me.rendered
       case Rendering => !me.rendered
       case Rendered(_) => me.rendered
       case Uploaded(_) => me.uploaded && PartKey(me.doc, me.locator) in db.objects
       case Raced => exists p :: p in db.parts && db.parts[p].doc == me.doc && db.parts[p].locator == me.locator
       case Returned(p) => p in db.parts && db.parts[p].doc == me.doc && db.parts[p].locator == me.locator
       case Crashed => true
  }

  ghost predicate Good(s: World) {
    Sound(s.db) && forall w :: w in s.workers ==> WorkerOk(s.db, s.workers[w])
  }

  /** Parts, rows and objects only accumulate. */
  ghost predicate Grows(db: Db, db': Db) {
    && db'.docs == db.docs && db.objects.Keys <= db'.objects.Keys
    && (forall p :: p in db.parts ==> p in db'.parts && db'.parts[p] == db.parts[p])
    && (forall m :: m in db.media ==> m in db'.media && db'.media[m].key == db.media[m].key)
  }

  lemma UpsertSound(db: Db, key: string, size: nat, uuid: nat)
    requires Sound(db) && uuid !in db.media
    ensures var (media, m) := Upserted(db.media, key, Some(size), uuid);
            && m in media && media[m].key == key
            && Sound(db.(media := media)) && Grows(db, db.(media := media))
  {
    UpsertUnique(db.media, key, Some(size), uuid);
    hide Upserted, PartKey;
  }

  lemma NewPartSound(db: Db, doc: string, locator: string, m: nat, part: nat)
    requires Sound(db) && part !in db.parts && PartAt(db.parts, doc, locator).None?
    requires m in db.media && db.media[m].key == PartKey(doc, locator) && PartKey(doc, locator) in db.objects
    ensures var db' := db.(parts := db.parts[part := Part(doc, locator, Some(m), None)]);
            Sound(db') && Grows(db, db')
  {
    hide PartKey;
  }

  lemma TxnGrows(db: Db, doc: string, locator: string, size: nat, uuid: nat, part: nat)
    requires Sound(db) && uuid !in db.media && part !in db.parts && PartKey(doc, locator) in db.objects
    ensures var (db', row) := PartTxn(db, doc, locator, size, uuid, part);
            && Sound(db') && Grows(db, db') && db'.objects == db.objects
            && (row.Some? ==> row == Some(part) && part in db'.parts && db'.parts[part].doc == doc
                              && db'.parts[part].locator == locator)
            && (doc in db.docs && row.None? ==>
                  exists p :: p in db.parts && db.parts[p].doc == doc && db.parts[p].locator == locator)
  {
    if doc in db.docs {
      var key := PartKey(doc, locator);
      UpsertSound(db, key, size, uuid);
      var (media, m) := Upserted(db.media, key, Some(size), uuid);
      if PartAt(db.parts, doc, locator).None? { NewPartSound(db.(media := media), doc, locator, m, part); }
    }
    hide Upserted, PartKey, Sound;
  }

  lemma WorkersFollow(db: Db, db': Db, me: Worker)
    requires Grows(db, db') && WorkerOk(db, me)
    ensures WorkerOk(db', me)
  {
    hide PartKey;
  }

  lemma StoreSound(db: Db, key: string, content: string)
    requires Sound(db)
    ensures var db' := db.(objects := db.objects[key := content]); Sound(db') && Grows(db, db')
  {
    hide PartKey;
  }

  lemma GrowsSelf(db: Db)
    ensures Grows(db, db)
  {}

  lemma StepGood(s: World, step: Step)
    requires Good(s) && Enabled(s, step)
    ensures Good(Next(s, step)) && Grows(s.db, Next(s, step).db)
    ensures step.act.Reread? ==> Next(s, step).workers[step.w].pc.Returned?
  {
    var s' := Next(s, step);
    GrowsSelf(s.db);
    if step.act.Spawn? {
    } else {
      var me := s.workers[step.w];
      assert WorkerOk(s.db, me);
      match step.act {
        case Commit(uuid, part) => TxnGrows(s.db, me.doc, me.locator, |me.pc.content|, uuid, part);
        case Store => StoreSound(s.db, PartKey(me.doc, me.locator), me.pc.content);
        case _ =>
      }
    }
    hide PartTxn, PartKey, Sound, Grows;
    assert WorkerOk(s'.db, s'.workers[step.w]);
    forall w | w in s'.workers ensures WorkerOk(s'.db, s'.workers[w]) {
      if w != step.w { WorkersFollow(s.db, s'.db, s.workers[w]); }
    }
  }

  /** An interleaving of runs from any sound database. */
  ghost predicate Run(start: Db, steps: seq<Step>, trace: seq<World>) {
    && |trace| == |steps| + 1 && trace[0] == World(start, map[]) && Sound(start)
    && forall i :: 0 <= i < |steps| ==> Enabled(trace[i], steps[i]) && trace[i + 1] == Next(trace[i], steps[i])
  }

  lemma {:induction false} RunGood(start: Db, steps: seq<Step>, trace: seq<World>, i: nat)
    requires Run(start, steps, trace) && i <= |steps|
    ensures Good(trace[i])
  {
    hide Next, Enabled;
    if i > 0 {
      RunGood(start, steps, trace, i - 1);
      StepGood(trace[i - 1], steps[i - 1]);
      hide Good;
    }
  }

  lemma {:induction false} RunGrows(start: Db, steps: seq<Step>, trace: seq<World>, i: nat, j: nat)
    requires Run(start, steps, trace) && i <= j <= |steps|
    ensures Grows(trace[i].db, trace[j].db)
  {
    hide Next, Enabled, Good;
    if i < j {
      RunGrows(start, steps, trace, i, j - 1);
      RunGood(start, steps, trace, j - 1);
      StepGood(trace[j - 1], steps[j - 1]);
    }
  }

  // ----------------------------------------------------------- main results

  /** In every state of every interleaving: a region has at most one part, whose blob row is
      the only row of its key. */
  lemma OnePartOneBlob(start: Db, steps: seq<Step>, trace: seq<World>, i: nat, p: nat, q: nat, m: nat)
    requires Run(start, steps, trace) && i <= |steps|
    requires p in trace[i].db.parts && q in trace[i].db.parts
    ensures var db := trace[i].db;
            && (db.parts[p].doc == db.parts[q].doc && db.parts[p].locator == db.parts[q].locator ==> p == q)
            && db.parts[p].media.Some? && db.parts[p].media.value in db.media
            && (m in db.media && db.media[m].key == db.media[db.parts[p].media.value].key ==>
                  db.parts[p].media == Some(m))
  {
    RunGood(start, steps, trace, i);
    assert Backed(trace[i].db, p);
    hide PartKey, Run;
  }

  /** All calls that return for a region, whenever they return, return the same part. */
  lemma SameAnswer(start: Db, steps: seq<Step>, trace: seq<World>, i: nat, j: nat, v: nat, w: nat)
    requires Run(start, steps, trace) && i <= j <= |steps|
    requires v in trace[i].workers && w in trace[j].workers
    requires var a, b := trace[i].workers[v], trace[j].workers[w];
             a.pc.Returned? && b.pc.Returned? && a.doc == b.doc && a.locator == b.locator
    ensures trace[i].workers[v].pc.part == trace[j].workers[w].pc.part
    ensures trace[i].workers[v].pc.part in trace[j].db.parts
  {
    RunGood(start, steps, trace, i);
    RunGood(start, steps, trace, j);
    RunGrows(start, steps, trace, i, j);
    assert WorkerOk(trace[i].db, trace[i].workers[v]) && WorkerOk(trace[j].db, trace[j].workers[w]);
    hide Run, PartKey, Backed;
  }

  /** A part that a step makes visible already had its object in the store. */
  lemma StoredBeforeVisible(start: Db, steps: seq<Step>, trace: seq<World>, i: nat, p: nat)
    requires Run(start, steps, trace) && i < |steps|
    requires p !in trace[i].db.parts && p in trace[i + 1].db.parts
    ensures var part := trace[i + 1].db.parts[p];
            && PartKey(part.doc, part.locator) in trace[i].db.objects
            && PartKey(part.doc, part.locator) in trace[i + 1].db.objects
            && part.media.Some? && part.media.value in trace[i + 1].db.media
            && trace[i + 1].db.media[part.media.value].key == PartKey(part.doc, part.locator)
  {
    RunGood(start, steps, trace, i);
    var s, step := trace[i], steps[i];
    assert trace[i + 1] == Next(s, step);
    assert step.act.Commit?;
    var me := s.workers[step.w];
    assert WorkerOk(s.db, me);
    TxnPart(s.db, me.doc, me.locator, |me.pc.content|, step.act.uuid, step.act.part);
    hide PartTxn, PartKey, Run, Good;
  }

  lemma TxnPart(db: Db, doc: string, locator: string, size: nat, uuid: nat, part: nat)
    requires Sound(db) && uuid !in db.media && part !in db.parts
    ensures var db' := PartTxn(db, doc, locator, size, uuid, part).0;
            forall p :: p in db'.parts && p !in db.parts ==>
              && db'.parts[p].doc == doc && db'.parts[p].locator == locator && db'.parts[p].media.Some?
              && db'.parts[p].media.value in db'.media
              && db'.media[db'.parts[p].media.value].key == PartKey(doc, locator)
  {
    UpsertUnique(db.media, PartKey(doc, locator), Some(size), uuid);
    hide Upserted, PartKey;
  }

  /** The run has not looked yet, or looked and found. */
  ghost predicate Idle(s: World, w: nat, doc: string, locator: string) {
    w in s.workers ==>
      var me := s.workers[w];
      me.doc == doc && me.locator == locator ==>
        !me.rendered && !me.uploaded && (me.pc.Start? || me.pc.Returned? || me.pc.Crashed?)
  }

  /** A run that starts when its region has a part neither renders nor uploads, ever. */
  lemma {:induction false} FinderDoesNothing(start: Db, steps: seq<Step>, trace: seq<World>, i: nat, j: nat,
                                             w: nat, doc: string, locator: string, p: nat)
    requires Run(start, steps, trace) && i <= j <= |steps|
    requires p in trace[i].db.parts && trace[i].db.parts[p].doc == doc && trace[i].db.parts[p].locator == locator
    requires w in trace[i].workers ==> trace[i].workers[w].pc.Start?
    ensures Idle(trace[j], w, doc, locator)
  {
    if i == j {
      RunGood(start, steps, trace, i);
      if w in trace[i].workers { assert WorkerOk(trace[i].db, trace[i].workers[w]); }
    } else {
      FinderDoesNothing(start, steps, trace, i, j - 1, w, doc, locator, p);
      RunGood(start, steps, trace, j - 1);
      RunGrows(start, steps, trace, i, j - 1);
      IdleStays(trace[j - 1], steps[j - 1], w, doc, locator, p);
    }
    hide Next, Enabled, Good, Idle, Grows, PartKey;
  }

  lemma IdleStays(s: World, step: Step, w: nat, doc: string, locator: string, p: nat)
    requires Good(s) && Enabled(s, step) && Idle(s, w, doc, locator)
    requires p in s.db.parts && s.db.parts[p].doc == doc && s.db.parts[p].locator == locator
    ensures Idle(Next(s, step), w, doc, locator)
  {
    if step.w != w {
      OthersStay(s, step, w);
      hide Next;
    } else if w in s.workers && s.workers[w].doc == doc && s.workers[w].locator == locator {
      CheckFinds(s, doc, locator, p);
      hide PartTxn, PartKey, Good, PartAt, Backed;
    }
  }

  lemma OthersStay(s: World, step: Step, w: nat)
    requires Enabled(s, step) && step.w != w
    ensures (w in Next(s, step).workers <==> w in s.workers)
         && (w in s.workers ==> Next(s, step).workers[w] == s.workers[w])
  {
    hide PartTxn, PartKey, PartAt;
  }

  lemma CheckFinds(s: World, doc: string, locator: string, p: nat)
    requires Good(s) && p in s.db.parts && s.db.parts[p].doc == doc && s.db.parts[p].locator == locator
    ensures PartAt(s.db.parts, doc, locator) == Some(p) && HasPart(s.db.parts, Some(p))
  {
    assert Backed(s.db, p);
    hide PartKey;
  }

  // ------------------------------------------------------- sizes and objects

  /** What the step stores under the key. */
  function StoredBy(s: World, step: Step, key: string): Option<string>
    requires Enabled(s, step)
  {
    if step.act.Store? && KeyOf(s, step.w) == Some(key) then Some(s.workers[step.w].pc.content) else None
  }

  /** What the step's transaction is for, if it goes through. */
  function CommittedBy(s: World, step: Step, key: string): Option<string>
    requires Enabled(s, step)
  {
    if step.act.Commit? && KeyOf(s, step.w) == Some(key) && s.workers[step.w].doc in s.db.docs
    then Some(s.workers[step.w].pc.content) else None
  }

  function KeyOf(s: World, w: nat): Option<string> {
    if w in s.workers then Some(PartKey(s.workers[w].doc, s.workers[w].locator)) else None
  }

  /** The last content stored under the key in the first `i` steps. */
  ghost function LastStored(start: Db, steps: seq<Step>, trace: seq<World>, i: nat, key: string): Option<string>
    requires Run(start, steps, trace) && i <= |steps|
  {
    if i == 0 then None
    else
      var now := StoredBy(trace[i - 1], steps[i - 1], key);
      if now.Some? then now else LastStored(start, steps, trace, i - 1, key)
  }

  ghost function LastCommitted(start: Db, steps: seq<Step>, trace: seq<World>, i: nat, key: string): Option<string>
    requires Run(start, steps, trace) && i <= |steps|
  {
    if i == 0 then None
    else
      var now := CommittedBy(trace[i - 1], steps[i - 1], key);
      if now.Some? then now else LastCommitted(start, steps, trace, i - 1, key)
  }

  /** The key's row has that size. */
  predicate Sized(db: Db, key: string, size: nat) {
    exists m :: m in db.media && db.media[m].key == key && db.media[m].size == Some(size)
  }

  lemma StepStores(s: World, step: Step, key: string)
    requires Enabled(s, step)
    ensures var objects, now := Next(s, step).db.objects, StoredBy(s, step, key);
            if now.Some? then key in objects && objects[key] == now.value
            else (key in objects <==> key in s.db.objects) && (key in objects ==> objects[key] == s.db.objects[key])
  {
    hide PartKey, Upserted, PartAt;
  }

  lemma StepSizes(s: World, step: Step, key: string, size: nat)
    requires Enabled(s, step) && UniqueKeys(s.db.media)
    ensures var now := CommittedBy(s, step, key);
            if now.Some? then Sized(Next(s, step).db, key, size) <==> size == |now.value|
            else Sized(Next(s, step).db, key, size) <==> Sized(s.db, key, size)
  {
    hide PartKey;
    if step.act.Commit? {
      var me := s.workers[step.w];
      UpsertSizes(s.db, PartKey(me.doc, me.locator), |me.pc.content|, step.act.uuid, key, size);
      TxnMedia(s.db, me.doc, me.locator, |me.pc.content|, step.act.uuid, step.act.part);
      hide PartTxn, Upserted, PartAt, UniqueKeys;
    } else {
      hide PartAt, UniqueKeys;
    }
  }

  lemma UpsertSizes(db: Db, own: string, length: nat, uuid: nat, key: string, size: nat)
    requires UniqueKeys(db.media) && uuid !in db.media
    ensures var db' := db.(media := Upserted(db.media, own, Some(length), uuid).0);
            Sized(db', key, size) <==> if own == key then size == length else Sized(db, key, size)
  {
    UpsertUnique(db.media, own, Some(length), uuid);
    var (media, m) := Upserted(db.media, own, Some(length), uuid);
    assert media[m].size == Some(length);
    hide Upserted;
    if own != key && Sized(db, key, size) {
      var n :| n in db.media && db.media[n].key == key && db.media[n].size == Some(size);
      assert n in media && media[n] == db.media[n];
    }
  }

  lemma TxnMedia(db: Db, doc: string, locator: string, size: nat, uuid: nat, part: nat)
    ensures PartTxn(db, doc, locator, size, uuid, part).0.media
         == if doc in db.docs then Upserted(db.media, PartKey(doc, locator), Some(size), uuid).0 else db.media
  {
    hide Upserted, PartKey, PartAt;
  }

  /** The object is the last one stored and the row's size that of the last one committed. */
  lemma {:induction false} LastOnesStand(start: Db, steps: seq<Step>, trace: seq<World>, i: nat, key: string, size: nat)
    requires Run(start, steps, trace) && i <= |steps|
    ensures var stored, db := LastStored(start, steps, trace, i, key), trace[i].db;
            stored.Some? ==> key in db.objects && db.objects[key] == stored.value
    ensures var committed := LastCommitted(start, steps, trace, i, key);
            committed.Some? ==> (Sized(trace[i].db, key, size) <==> size == |committed.value|)
  {
    if i > 0 {
      LastOnesStand(start, steps, trace, i - 1, key, size);
      RunGood(start, steps, trace, i - 1);
      StepStores(trace[i - 1], steps[i - 1], key);
      StepSizes(trace[i - 1], steps[i - 1], key, size);
      hide Next, Sized, StoredBy, CommittedBy, PartKey, Enabled;
    }
  }

  /** A run in its upload or beyond has stored. */
  lemma {:induction false} UploadedStored(start: Db, steps: seq<Step>, trace: seq<World>, i: nat, w: nat)
    requires Run(start, steps, trace) && i <= |steps| && w in trace[i].workers && trace[i].workers[w].pc.Uploaded?
    ensures LastStored(start, steps, trace, i, KeyOf(trace[i], w).value).Some?
  {
    hide PartKey, PartTxn, PartAt;
    var s, step := trace[i - 1], steps[i - 1];
    assert trace[i] == Next(s, step);
    if w in s.workers && s.workers[w].pc.Uploaded? { UploadedStored(start, steps, trace, i - 1, w); }
  }

  lemma {:induction false} CommittedStored(start: Db, steps: seq<Step>, trace: seq<World>, i: nat, key: string)
    requires Run(start, steps, trace) && i <= |steps| && LastCommitted(start, steps, trace, i, key).Some?
    ensures LastStored(start, steps, trace, i, key).Some?
  {
    hide PartKey, Next;
    if CommittedBy(trace[i - 1], steps[i - 1], key).Some? {
      UploadedStored(start, steps, trace, i - 1, steps[i - 1].w);
    } else {
      CommittedStored(start, steps, trace, i - 1, key);
    }
  }

  /** Once a run has committed a region, its row's size is its object's length exactly when the
      last render committed is as long as the last one stored: two racing runs with different
      renders may store in one order and commit in the other. */
  lemma SizeAgreesIff(start: Db, steps: seq<Step>, trace: seq<World>, i: nat, key: string)
    requires Run(start, steps, trace) && i <= |steps| && LastCommitted(start, steps, trace, i, key).Some?
    ensures LastStored(start, steps, trace, i, key).Some? && key in trace[i].db.objects
    ensures Sized(trace[i].db, key, |trace[i].db.objects[key]|)
            <==> |LastCommitted(start, steps, trace, i, key).value| == |LastStored(start, steps, trace, i, key).value|
  {
    CommittedStored(start, steps, trace, i, key);
    LastOnesStand(start, steps, trace, i, key, |LastStored(start, steps, trace, i, key).value|);
    hide Sized, LastStored, LastCommitted;
  }

  /** All renders for the key have length `n`. */
  ghost predicate RendersAlike(steps: seq<Step>, trace: seq<World>, key: string, n: nat)
    requires |steps| <= |trace|
  {
    forall k :: 0 <= k < |steps| && steps[k].act.Render? && KeyOf(trace[k], steps[k].w) == Some(key)
                ==> |steps[k].act.content| == n
  }

  lemma {:induction false} HeldAlike(start: Db, steps: seq<Step>, trace: seq<World>, i: nat, key: string, n: nat, w: nat)
    requires Run(start, steps, trace) && i <= |steps| && RendersAlike(steps, trace, key, n)
    requires w in trace[i].workers && KeyOf(trace[i], w) == Some(key)
    ensures var pc := trace[i].workers[w].pc; pc.Rendered? || pc.Uploaded? ==> |pc.content| == n
  {
    hide PartKey, PartTxn, PartAt;
    if i > 0 {
      var s, step := trace[i - 1], steps[i - 1];
      assert trace[i] == Next(s, step);
      if w in s.workers { HeldAlike(start, steps, trace, i - 1, key, n, w); }
    }
  }

  lemma {:induction false} LastAlike(start: Db, steps: seq<Step>, trace: seq<World>, i: nat, key: string, n: nat)
    requires Run(start, steps, trace) && i <= |steps| && RendersAlike(steps, trace, key, n)
    ensures var stored := LastStored(start, steps, trace, i, key); stored.Some? ==> |stored.value| == n
    ensures var committed := LastCommitted(start, steps, trace, i, key); committed.Some? ==> |committed.value| == n
  {
    hide PartKey, Next, RendersAlike;
    if i > 0 {
      LastAlike(start, steps, trace, i - 1, key, n);
      var w := steps[i - 1].w;
      if KeyOf(trace[i - 1], w) == Some(key) { HeldAlike(start, steps, trace, i - 1, key, n, w); }
    }
  }

  /** So with renders of one length, every size recorded is its object's. */
  lemma AlikeAgree(start: Db, steps: seq<Step>, trace: seq<World>, i: nat, key: string, n: nat)
    requires Run(start, steps, trace) && i <= |steps| && LastCommitted(start, steps, trace, i, key).Some?
    requires RendersAlike(steps, trace, key, n)
    ensures key in trace[i].db.objects && Sized(trace[i].db, key, |trace[i].db.objects[key]|)
  {
    SizeAgreesIff(start, steps, trace, i, key);
    LastAlike(start, steps, trace, i, key, n);
    hide Sized, LastStored, LastCommitted, Run;
  }
}
