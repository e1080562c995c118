/** The write slots of one checkpoint (doci/workflows/checkpoint.py): `aput_writes` batches
    into a hash of slots, and the ordered list read back from it. */
module PendingWrites {
  import opened Sorting
  import opened Text

  /** A packed write: task, channel, serialized value, task path. */
  datatype Row = Row(task: string, channel: string, value: string, path: string)

  /** One `aput_writes` call: the (channel, value) pairs of one task. */
  datatype Batch = Batch(task: string, path: string, writes: seq<(string, string)>)

  /** `WRITES_IDX_MAP` gives each special channel its own negative index. */
  predicate Special(index: map<string, int>) { forall c | c in index :: index[c] < 0 }

  function SlotIndex(index: map<string, int>, channel: string, position: nat): int {
    if channel in index then index[channel] else position
  }

  function FieldText(task: string, i: int): string { task + ":" + ShowInt(i) }

  function RowOf(b: Batch, k: nat): Row
    requires k < |b.writes|
  { Row(b.task, b.writes[k].0, b.writes[k].1, b.path) }

  function FieldOf(index: map<string, int>, b: Batch, k: nat): string
    requires k < |b.writes|
  { FieldText(b.task, SlotIndex(index, b.writes[k].0, k)) }

  /** The first `n` writes of a batch applied to the hash, `existing` being the fields it had
      when the batch began: an ordinary slot already there is skipped. */
  function Applied(index: map<string, int>, h: map<string, Row>, b: Batch, n: nat): map<string, Row>
    requires n <= |b.writes|
  {
    if n == 0 then h
    else
      var before := Applied(index, h, b, n - 1);
      var f := FieldOf(index, b, n - 1);
      if SlotIndex(index, b.writes[n - 1].0, n - 1) >= 0 && f in h then before
      else before[f := RowOf(b, n - 1)]
  }

  function ApplyBatch(index: map<string, int>, h: map<string, Row>, b: Batch): map<string, Row> {
    Applied(index, h, b, |b.writes|)
  }

  function ApplyAll(index: map<string, int>, batches: seq<Batch>): map<string, Row> {
    if batches == [] then map[]
    else ApplyBatch(index, ApplyAll(index, batches[..|batches| - 1]), batches[|batches| - 1])
  }

  // ------------------------------------------------------------ field texts

  /** `field.rsplit(":", 1)[1]` */
  function AfterLastColon(s: string): string {
    if s == [] || s[|s| - 1] == ':' then [] else AfterLastColon(s[..|s| - 1]) + [s[|s| - 1]]
  }

  lemma {:induction false} AfterLastColonOf(t: string, u: string)
    requires ':' !in u
    ensures AfterLastColon(t + ":" + u) == u
  {
    var s := t + ":" + u;
    if u != [] {
      var v := u[..|u| - 1];
      assert s[..|s| - 1] == t + ":" + v;
      assert u == v + [u[|u| - 1]];
      AfterLastColonOf(t, v);
    }
  }

  /** The field text decodes back to its task and index. */
  lemma FieldDecodes(task: string, i: int)
    ensures var f := FieldText(task, i);
            var u := AfterLastColon(f);
            && u == ShowInt(i)
            && u != [] && AllDigits(u[1..]) && (IsDigit(u[0]) || u[0] == '-') && ReadInt(u) == i
            && f[..|f| - |u| - 1] == task
  {
    ReadShowInt(i);
    AfterLastColonOf(task, ShowInt(i));
  }

  lemma FieldInjective(task: string, i: int, task': string, i': int)
    requires FieldText(task, i) == FieldText(task', i')
    ensures task == task' && i == i'
  {
    FieldDecodes(task, i);
    FieldDecodes(task', i');
  }

  // ------------------------------------------------------ one batch by slots

  lemma SlotTexts(task: string, i: int, j: int)
    ensures FieldText(task, i) == FieldText(task, j) ==> i == j
  {
    if FieldText(task, i) == FieldText(task, j) { FieldInjective(task, i, task, j); }
  }

  /** A slot that no write of the batch goes to stays as it was. */
  lemma {:induction false} OtherSlot(index: map<string, int>, h: map<string, Row>, b: Batch, n: nat, f: string)
    requires n <= |b.writes|
    requires forall k | 0 <= k < n ::
               f != FieldText(b.task, if b.writes[k].0 in index then index[b.writes[k].0] else k)
    ensures var h' := Applied(index, h, b, n);
            (f in h' <==> f in h) && (f in h' ==> h'[f] == h[f])
  {
    hide FieldText;
    if n > 0 { OtherSlot(index, h, b, n - 1, f); }
  }

  /** A write at position `k` to an ordinary channel fills the slot (task, k) with its row,
      unless the hash held that slot before the batch. */
  lemma {:induction false} OrdinarySlot(index: map<string, int>, h: map<string, Row>, b: Batch, n: nat, k: nat)
    requires Special(index) && k < n <= |b.writes| && b.writes[k].0 !in index
    ensures var h', f := Applied(index, h, b, n), FieldText(b.task, k);
            && f in h'
            && (f in h ==> h'[f] == h[f])
            && (f !in h ==> h'[f] == Row(b.task, b.writes[k].0, b.writes[k].1, b.path))
  {
    hide FieldText;
    if n - 1 == k {
      forall j | 0 <= j < k
        ensures FieldText(b.task, k) != FieldText(b.task, if b.writes[j].0 in index then index[b.writes[j].0] else j)
      {
        SlotTexts(b.task, k, SlotIndex(index, b.writes[j].0, j));
      }
      OtherSlot(index, h, b, k, FieldText(b.task, k));
    } else {
      OrdinarySlot(index, h, b, n - 1, k);
      SlotTexts(b.task, k, SlotIndex(index, b.writes[n - 1].0, n - 1));
    }
  }

  /** A write to a special channel leaves its row in the channel's slot, unless a later write
      of the batch goes to the same slot. */
  lemma {:induction false} SpecialSlot(index: map<string, int>, h: map<string, Row>, b: Batch, n: nat, k: nat)
    requires Special(index) && k < n <= |b.writes| && b.writes[k].0 in index
    requires forall j | k < j < n :: b.writes[j].0 in index ==> index[b.writes[j].0] != index[b.writes[k].0]
    ensures var h', f := Applied(index, h, b, n), FieldText(b.task, index[b.writes[k].0]);
            f in h' && h'[f] == Row(b.task, b.writes[k].0, b.writes[k].1, b.path)
  {
    hide FieldText;
    if n - 1 > k {
      SpecialSlot(index, h, b, n - 1, k);
      SlotTexts(b.task, index[b.writes[k].0], SlotIndex(index, b.writes[n - 1].0, n - 1));
    }
  }

  // -------------------------------------------------- first and last writes

  /** Every row offered to slot `f` by the first `n` writes of a batch, in order. */
  function Offered(index: map<string, int>, b: Batch, n: nat, f: string): seq<Row>
    requires n <= |b.writes|
  {
    if n == 0 then []
    else Offered(index, b, n - 1, f) + if FieldOf(index, b, n - 1) == f then [RowOf(b, n - 1)] else []
  }

  /** Every row the batches offer to slot `f`, in order. */
  function Offers(index: map<string, int>, batches: seq<Batch>, f: string): seq<Row> {
    if batches == [] then []
    else Offers(index, batches[..|batches| - 1], f)
         + Offered(index, batches[|batches| - 1], |batches[|batches| - 1].writes|, f)
  }

  /** The one row that the slot keeps of those offered. */
  predicate Keeps(h: map<string, Row>, f: string, i: int, offers: seq<Row>) {
    if offers == [] then f !in h
    else f in h && h[f] == if i >= 0 then offers[0] else offers[|offers| - 1]
  }

  lemma KeepStep(h: map<string, Row>, before: map<string, Row>, f: string, i: int,
                 offers: seq<Row>, seen: seq<Row>, row: Row)
    requires Keeps(h, f, i, offers) && Keeps(before, f, i, offers + seen)
    requires i >= 0 ==> seen == []
    ensures Keeps(if i >= 0 && f in h then before else before[f := row], f, i, offers + (seen + [row]))
  {
    assert offers + (seen + [row]) == (offers + seen) + [row];
    assert i >= 0 ==> offers + seen == offers;
  }

  lemma {:induction false} BatchKeeps(index: map<string, int>, h: map<string, Row>, b: Batch, n: nat,
                                      task: string, i: int, offers: seq<Row>)
    requires Special(index) && n <= |b.writes|
    requires Keeps(h, FieldText(task, i), i, offers)
    ensures Keeps(Applied(index, h, b, n), FieldText(task, i), i, offers + Offered(index, b, n, FieldText(task, i)))
    ensures 0 <= n <= i ==> Offered(index, b, n, FieldText(task, i)) == []
  {
    var f := FieldText(task, i);
    hide FieldText, Keeps;
    if n == 0 {
      assert offers + [] == offers;
    } else {
      BatchKeeps(index, h, b, n - 1, task, i, offers);
      var j := SlotIndex(index, b.writes[n - 1].0, n - 1);
      var seen, before := Offered(index, b, n - 1, f), Applied(index, h, b, n - 1);
      if FieldText(b.task, j) == f {
        FieldInjective(b.task, j, task, i);
        KeepStep(h, before, f, i, offers, seen, RowOf(b, n - 1));
      } else {
        assert seen + [] == seen;
        KeepOther(before, f, i, offers + seen, FieldText(b.task, j), RowOf(b, n - 1));
      }
    }
  }

  lemma KeepOther(h: map<string, Row>, f: string, i: int, offers: seq<Row>, g: string, row: Row)
    requires Keeps(h, f, i, offers) && f != g
    ensures Keeps(h[g := row], f, i, offers)
  {}

  /** After any batches, replayed in any way, an ordinary (task, position) slot holds the first
      row ever offered to it and a special-channel slot the last. */
  lemma {:induction false} SlotsKeepFirstOrLast(index: map<string, int>, batches: seq<Batch>, task: string, i: int)
    requires Special(index)
    ensures Keeps(ApplyAll(index, batches), FieldText(task, i), i, Offers(index, batches, FieldText(task, i)))
  {
    if batches != [] {
      var n := |batches| - 1;
      SlotsKeepFirstOrLast(index, batches[..n], task, i);
      var b := batches[n];
      BatchKeeps(index, ApplyAll(index, batches[..n]), b, |b.writes|, task, i,
                 Offers(index, batches[..n], FieldText(task, i)));
    }
  }

  lemma {:induction false} NotOffered(index: map<string, int>, b: Batch, n: nat, task: string, i: int)
    requires Special(index) && n <= |b.writes|
    requires b.task == task ==> forall k | 0 <= k < n :: i != if b.writes[k].0 in index then index[b.writes[k].0] else k
    ensures Offered(index, b, n, FieldText(task, i)) == []
  {
    hide FieldText;
    if n > 0 {
      NotOffered(index, b, n - 1, task, i);
      var j := SlotIndex(index, b.writes[n - 1].0, n - 1);
      if FieldText(b.task, j) == FieldText(task, i) { FieldInjective(b.task, j, task, i); }
    }
  }

  /** The only row that a batch offers to an ordinary slot. */
  lemma {:induction false} OfferedOnce(index: map<string, int>, b: Batch, n: nat, k: nat)
    requires Special(index) && k < n <= |b.writes| && b.writes[k].0 !in index
    ensures Offered(index, b, n, FieldText(b.task, k)) == [Row(b.task, b.writes[k].0, b.writes[k].1, b.path)]
  {
    hide FieldText;
    if n - 1 == k {
      NotOffered(index, b, k, b.task, k);
    } else {
      OfferedOnce(index, b, n - 1, k);
      SlotTexts(b.task, k, SlotIndex(index, b.writes[n - 1].0, n - 1));
    }
  }

  lemma {:induction false} NoOffers(index: map<string, int>, batches: seq<Batch>, task: string, i: int)
    requires Special(index)
    requires forall b | b in batches && b.task == task ::
               forall k | 0 <= k < |b.writes| :: i != if b.writes[k].0 in index then index[b.writes[k].0] else k
    ensures Offers(index, batches, FieldText(task, i)) == []
  {
    if batches != [] {
      var n := |batches| - 1;
      NoOffers(index, batches[..n], task, i);
      assert batches[n] in batches;
      NotOffered(index, batches[n], |batches[n].writes|, task, i);
    }
  }

  /** The first write to an ordinary slot is the one that the batches leave there. */
  lemma FirstWriteStands(index: map<string, int>, batches: seq<Batch>, i: nat, k: nat)
    requires Special(index) && i < |batches| && k < |batches[i].writes| && batches[i].writes[k].0 !in index
    requires forall j | 0 <= j < i && batches[j].task == batches[i].task && k < |batches[j].writes| ::
               batches[j].writes[k].0 in index
    ensures var b, h := batches[i], ApplyAll(index, batches);
            && FieldText(b.task, k) in h
            && h[FieldText(b.task, k)] == Row(b.task, b.writes[k].0, b.writes[k].1, b.path)
  {
    SlotsKeepFirstOrLast(index, batches, batches[i].task, k);
    FirstOffer(index, batches, i, k);
    hide FieldText;
  }

  lemma {:induction false} FirstOffer(index: map<string, int>, batches: seq<Batch>, i: nat, k: nat)
    requires Special(index) && i < |batches| && k < |batches[i].writes| && batches[i].writes[k].0 !in index
    requires forall j | 0 <= j < i && batches[j].task == batches[i].task && k < |batches[j].writes| ::
               batches[j].writes[k].0 in index
    ensures var b := batches[i];
            var offers := Offers(index, batches, FieldText(b.task, k));
            offers != [] && offers[0] == Row(b.task, b.writes[k].0, b.writes[k].1, b.path)
  {
    hide FieldText, Offered;
    var b := batches[i];
    var n := |batches| - 1;
    if i < n {
      FirstOffer(index, batches[..n], i, k);
    } else {
      NoOffers(index, batches[..n], b.task, k);
      OfferedOnce(index, b, |b.writes|, k);
    }
  }

  /** The last write to a special channel's slot is. */
  lemma {:induction false} LastWriteStands(index: map<string, int>, batches: seq<Batch>, i: nat, k: nat)
    requires Special(index) && i < |batches| && k < |batches[i].writes| && batches[i].writes[k].0 in index
    requires var b, slot := batches[i], index[batches[i].writes[k].0];
             && (forall m | k < m < |b.writes| :: b.writes[m].0 in index ==> index[b.writes[m].0] != slot)
             && (forall j | i < j < |batches| && batches[j].task == b.task ::
                   forall m | 0 <= m < |batches[j].writes| ::
                     batches[j].writes[m].0 in index ==> index[batches[j].writes[m].0] != slot)
    ensures var b, h := batches[i], ApplyAll(index, batches);
            && FieldText(b.task, index[b.writes[k].0]) in h
            && h[FieldText(b.task, index[b.writes[k].0])] == Row(b.task, b.writes[k].0, b.writes[k].1, b.path)
  {
    hide FieldText;
    var n, slot := |batches| - 1, index[batches[i].writes[k].0];
    var h := ApplyAll(index, batches[..n]);
    if i < n {
      LastWriteStands(index, batches[..n], i, k);
      var b := batches[n];
      forall m | 0 <= m < |b.writes|
        ensures FieldText(batches[i].task, slot)
                != FieldText(b.task, if b.writes[m].0 in index then index[b.writes[m].0] else m)
      {
        var j := SlotIndex(index, b.writes[m].0, m);
        if FieldText(batches[i].task, slot) == FieldText(b.task, j) { FieldInjective(batches[i].task, slot, b.task, j); }
      }
      OtherSlot(index, h, b, |b.writes|, FieldText(batches[i].task, slot));
    } else {
      SpecialSlot(index, h, batches[i], |batches[i].writes|, k);
    }
  }

  /** A replayed batch of ordinary channels changes nothing. */
  lemma ReplayIsNoop(index: map<string, int>, batches: seq<Batch>, k: nat)
    requires Special(index) && k < |batches|
    requires forall w | w in batches[k].writes :: w.0 !in index
    ensures ApplyBatch(index, ApplyAll(index, batches), batches[k]) == ApplyAll(index, batches)
  {
    var b, h := batches[k], ApplyAll(index, batches);
    forall n | 0 <= n < |b.writes| ensures FieldOf(index, b, n) in h {
      assert b.writes[n] in b.writes;
      SlotsKeepFirstOrLast(index, batches, b.task, n);
      OfferedAt(index, b, |b.writes|, n);
      OffersInclude(index, batches, k, FieldOf(index, b, n));
    }
    AppliedNoop(index, h, b, |b.writes|);
  }

  lemma {:induction false} OfferedAt(index: map<string, int>, b: Batch, n: nat, k: nat)
    requires k < n <= |b.writes|
    ensures Offered(index, b, n, FieldOf(index, b, k)) != []
  {
    hide FieldText;
    if k < n - 1 { OfferedAt(index, b, n - 1, k); }
  }

  lemma {:induction false} OffersInclude(index: map<string, int>, batches: seq<Batch>, k: nat, f: string)
    requires k < |batches| && Offered(index, batches[k], |batches[k].writes|, f) != []
    ensures Offers(index, batches, f) != []
  {
    if k < |batches| - 1 { OffersInclude(index, batches[..|batches| - 1], k, f); }
  }

  lemma {:induction false} AppliedNoop(index: map<string, int>, h: map<string, Row>, b: Batch, n: nat)
    requires n <= |b.writes|
    requires forall k | 0 <= k < |b.writes| :: b.writes[k].0 !in index && FieldOf(index, b, k) in h
    ensures Applied(index, h, b, n) == h
  {
    if n > 0 { AppliedNoop(index, h, b, n - 1); }
  }

  // ------------------------------------------------------------ reading back

  /** A row with the write index its field carries. */
  datatype Slot = Slot(i: int, row: Row)

  /** Every field is the text of its row's task and some index. */
  predicate Fields(h: map<string, Row>) {
    forall f | f in h :: AfterLastColon(f) != [] && Numeral(AfterLastColon(f))
                         && f == FieldText(h[f].task, ReadInt(AfterLastColon(f)))
  }

  predicate Numeral(u: string)
    requires u != []
  { AllDigits(u[1..]) && (IsDigit(u[0]) || u[0] == '-') }

  function SlotOf(h: map<string, Row>, f: string): Slot
    requires Fields(h) && f in h
  { Slot(ReadInt(AfterLastColon(f)), h[f]) }

  /** `rows.sort(key=(task_id, index))` */
  predicate SlotLess(a: Slot, b: Slot) {
    Less(a.row.task, b.row.task) || (a.row.task == b.row.task && a.i < b.i)
  }

  const SLOT_LESS: (Slot, Slot) -> bool := (a, b) => SlotLess(a, b)

  function Slots(h: map<string, Row>, fields: seq<string>): seq<Slot>
    requires Fields(h) && forall f | f in fields :: f in h
  {
    seq(|fields|, k requires 0 <= k < |fields| => SlotOf(h, fields[k]))
  }

  /** The pending writes, from the hash's fields in the order the server yields them. */
  function Pending(h: map<string, Row>, fields: seq<string>): seq<Slot>
    requires Fields(h) && forall f | f in fields :: f in h
  {
    Sort(SLOT_LESS, Slots(h, fields))
  }

  lemma SlotOrder()
    ensures Strict(SLOT_LESS)
  {
    forall a: Slot ensures !SLOT_LESS(a, a) { LessIrreflexive(a.row.task); }
    forall a: Slot, b: Slot, c: Slot | SLOT_LESS(a, b) && SLOT_LESS(b, c) ensures SLOT_LESS(a, c) {
      if Less(a.row.task, b.row.task) && Less(b.row.task, c.row.task) {
        LessTransitive(a.row.task, b.row.task, c.row.task);
      }
    }
  }

  lemma SlotsDiffer(h: map<string, Row>, fields: seq<string>)
    requires Fields(h) && Distinct(fields) && forall f | f in fields :: f in h
    ensures Distinct(Slots(h, fields)) && Comparable(SLOT_LESS, Slots(h, fields))
  {
    var r := Slots(h, fields);
    forall a, b | a in r && b in r && a != b ensures SLOT_LESS(a, b) || SLOT_LESS(b, a) {
      LessTotal(a.row.task, b.row.task);
    }
  }

  /** `fields` is one order in which the server may yield the hash. */
  ghost predicate Yields(h: map<string, Row>, fields: seq<string>) {
    Distinct(fields) && forall f :: f in fields <==> f in h
  }

  /** The returned list does not depend on the order the hash yields its fields: it is one
      slot per field, ascending by task and index. */
  lemma PendingDeterministic(h: map<string, Row>, fields: seq<string>, fields': seq<string>)
    requires Fields(h) && Yields(h, fields) && Yields(h, fields')
    ensures Pending(h, fields) == Pending(h, fields')
    ensures Ascending(SLOT_LESS, Pending(h, fields))
    ensures forall s :: s in Pending(h, fields) <==> exists f :: f in h && s == SlotOf(h, f)
  {
    var a, b := Slots(h, fields), Slots(h, fields');
    SlotOrder();
    SlotsDiffer(h, fields);
    SlotsDiffer(h, fields');
    forall s ensures s in a <==> exists f :: f in h && s == SlotOf(h, f) {
      if f :| f in h && s == SlotOf(h, f) { assert f in fields; var k :| 0 <= k < |fields| && fields[k] == f; assert a[k] == s; }
      if s in a { var k :| 0 <= k < |a| && a[k] == s; assert fields[k] in fields && s == SlotOf(h, fields[k]); }
    }
    forall s ensures s in b <==> exists f :: f in h && s == SlotOf(h, f) {
      if f :| f in h && s == SlotOf(h, f) { assert f in fields'; var k :| 0 <= k < |fields'| && fields'[k] == f; assert b[k] == s; }
      if s in b { var k :| 0 <= k < |b| && b[k] == s; assert fields'[k] in fields' && s == SlotOf(h, fields'[k]); }
    }
    SortUnique(SLOT_LESS, a, b);
    SortSorts(SLOT_LESS, a);
  }

  lemma SlotIs(h: map<string, Row>, f: string, s: Slot)
    requires Fields(h) && f in h
    ensures s == SlotOf(h, f) <==> s.row == h[f] && f == FieldText(s.row.task, s.i)
  {
    if f == FieldText(s.row.task, s.i) { FieldDecodes(s.row.task, s.i); }
    hide FieldText, AfterLastColon;
  }

  /** One entry for every field, its row with the index in the field's text, by task and then
      by index. */
  lemma PendingIs(h: map<string, Row>, fields: seq<string>)
    requires Fields(h) && Yields(h, fields)
    ensures var r := Pending(h, fields);
            && (forall a, b | 0 <= a < b < |r| ::
                  Less(r[a].row.task, r[b].row.task) || (r[a].row.task == r[b].row.task && r[a].i < r[b].i))
            && forall s :: s in r <==> exists f | f in h :: s.row == h[f] && f == FieldText(s.row.task, s.i)
  {
    var r := Pending(h, fields);
    PendingDeterministic(h, fields, fields);
    forall s ensures s in r <==> exists f | f in h :: s.row == h[f] && f == FieldText(s.row.task, s.i) {
      forall f | f in h ensures s == SlotOf(h, f) <==> s.row == h[f] && f == FieldText(s.row.task, s.i) {
        SlotIs(h, f, s);
      }
      hide SlotOf, FieldText, Fields, Pending;
    }
    hide Pending, Less;
    forall a, b | 0 <= a < b < |r|
      ensures Less(r[a].row.task, r[b].row.task) || (r[a].row.task == r[b].row.task && r[a].i < r[b].i)
    {
      assert SLOT_LESS(r[a], r[b]);
    }
  }

  lemma {:induction false} AppliedFields(index: map<string, int>, h: map<string, Row>, b: Batch, n: nat)
    requires Fields(h) && n <= |b.writes|
    ensures Fields(Applied(index, h, b, n))
  {
    hide FieldText, AfterLastColon;
    if n > 0 {
      AppliedFields(index, h, b, n - 1);
      FieldDecodes(b.task, SlotIndex(index, b.writes[n - 1].0, n - 1));
    }
  }
}
