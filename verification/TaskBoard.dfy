/** The task monitor of doci/taskiq/monitor.py: expiring lifecycle records and the sorted set
    that indexes them by last update.  A sorted set is its list of (score, id), highest first. */
module TaskBoard {
  import opened Keyspace
  import opened Options
  import opened Sorting
  import opened Text

  type Fields = map<string, string>
  datatype Rank = Rank(id: string, score: int)

  /** Redis order, reversed: by score, then by id. */
  predicate Higher(a: Rank, b: Rank) { a.score > b.score || (a.score == b.score && Less(b.id, a.id)) }

  const HIGHER: (Rank, Rank) -> bool := (a, b) => Higher(a, b)

  datatype Board = Board(hashes: map<string, Entry<Fields>>, index: seq<Rank>, deadline: int)

  const SCANNED: nat := 1000

  /** The index as a command at `now` finds it. */
  function IndexAt(s: Board, now: int): seq<Rank> { if now < s.deadline then s.index else [] }

  /** The sub-list of the ranks in `keep`. */
  function Where(index: seq<Rank>, keep: set<Rank>): seq<Rank> {
    if index == [] then []
    else (if index[0] in keep then [index[0]] else []) + Where(index[1..], keep)
  }

  function Except(index: seq<Rank>, ids: set<string>): set<Rank> { set r | r in index && r.id !in ids }

  function Above(index: seq<Rank>, cut: int): set<Rank> { set r | r in index && r.score > cut }

  /** ZADD */
  function Add(index: seq<Rank>, id: string, score: int): seq<Rank> {
    Insert(HIGHER, Rank(id, score), Where(index, Except(index, {id})))
  }

  /** ZREMRANGEBYSCORE -inf cut */
  function Trim(index: seq<Rank>, cut: int): seq<Rank> { Where(index, Above(index, cut)) }

  /** `_touch`: the hash loses `clear` and gains `mapping`; hash and index are stamped with the
      TTL at the server's time; the score and the trim use the caller's clock. */
  function Touch(s: Board, ttl: int, id: string, mapping: Fields, clear: set<string>, client: int, server: int): Board {
    var fields := GetOr(s.hashes, id, server, map[]) - clear + mapping;
    Board(Expire(Put(s.hashes, id, fields, server), id, ttl, server),
          Trim(Add(IndexAt(s, server), id, client), client - ttl),
          server + ttl)
  }

  predicate LiveAt(s: Board, id: string, now: int) { id in s.hashes && Live(s.hashes[id], now) }

  function Take<T>(s: seq<T>, n: nat): seq<T> { if |s| <= n then s else s[..n] }

  /** The rows `list` keeps of the scanned ids: live, and in the asked state. */
  function Rows(s: Board, ids: seq<Rank>, state: Option<string>, now: int): seq<Fields> {
    if ids == [] then []
    else
      Rows(s, ids[..|ids| - 1], state, now)
      + match Get(s.hashes, ids[|ids| - 1].id, now)
        case None => []
        case Some(row) => if InState(row, state) then [row] else []
  }

  predicate InState(row: Fields, state: Option<string>) {
    state.Some? ==> "state" in row && row["state"] == state.value
  }

  /** `out[offset : offset + limit]` */
  function Slice<T>(s: seq<T>, offset: nat, limit: nat): seq<T> {
    if offset >= |s| then [] else Take(s[offset..], limit)
  }

  function ListAt(s: Board, state: Option<string>, limit: nat, offset: nat, now: int): seq<Fields> {
    Slice(Rows(s, Take(IndexAt(s, now), SCANNED), state, now), offset, limit)
  }

  /** The ids among `ids` whose record is gone. */
  function Gone(s: Board, ids: seq<Rank>, now: int): set<string> { set r | r in ids && !LiveAt(s, r.id, now) :: r.id }

  function Stale(s: Board, now: int): set<string> { Gone(s, Take(IndexAt(s, now), SCANNED), now) }

  /** `list` also removes from the index the scanned ids whose record is gone. */
  function Swept(s: Board, now: int): Board {
    s.(index := Where(s.index, Except(s.index, Stale(s, now))))
  }

  // -------------------------------------------------------------- invariant

  /** The index is in order, each indexed id once, its score one TTL before its record's
      deadline. */
  ghost predicate Indexed(s: Board, ttl: int, now: int) {
    && Ascending(HIGHER, s.index)
    && (forall q, r :: q in s.index && r in s.index && q.id == r.id ==> q == r)
    && (forall r :: r in s.index ==> r.score <= now && r.id in s.hashes && s.hashes[r.id].deadline == Some(r.score + ttl))
  }

  /** Every live record is indexed while the index lasts, and it lasts as long. */
  ghost predicate Covered(s: Board, ttl: int, now: int) {
    && (forall id :: id in s.hashes ==> s.hashes[id].deadline.Some?)
    && (forall id :: LiveAt(s, id, now) ==>
          Rank(id, s.hashes[id].deadline.value - ttl) in s.index && s.hashes[id].deadline.value <= s.deadline)
  }

  ghost predicate Synced(s: Board, ttl: int, now: int) { Indexed(s, ttl, now) && Covered(s, ttl, now) }

  lemma RankOrder()
    ensures Strict(HIGHER)
    ensures forall s: seq<Rank> :: Comparable(HIGHER, s)
  {
    forall a: Rank ensures !HIGHER(a, a) { LessIrreflexive(a.id); }
    forall a: Rank, b: Rank, c: Rank | HIGHER(a, b) && HIGHER(b, c) ensures HIGHER(a, c) {
      if Less(b.id, a.id) && Less(c.id, b.id) { LessTransitive(c.id, b.id, a.id); }
    }
    forall a: Rank, b: Rank ensures HIGHER(a, b) || a == b || HIGHER(b, a) { LessTotal(a.id, b.id); }
  }

  lemma {:induction false} WhereIs(index: seq<Rank>, keep: set<Rank>)
    ensures forall r :: r in Where(index, keep) <==> r in index && r in keep
    ensures Ascending(HIGHER, index) ==> Ascending(HIGHER, Where(index, keep))
  {
    if index != [] {
      WhereIs(index[1..], keep);
      assert index == [index[0]] + index[1..];
      if Ascending(HIGHER, index) {
        assert Ascending(HIGHER, index[1..]);
        var rest := Where(index[1..], keep);
        forall j | 0 <= j < |rest| ensures HIGHER(index[0], rest[j]) {
          assert rest[j] in rest;
          var k :| 0 <= k < |index[1..]| && index[1..][k] == rest[j];
          assert index[k + 1] == rest[j];
        }
      }
    }
  }

  lemma AddIs(index: seq<Rank>, id: string, score: int)
    requires Ascending(HIGHER, index)
    ensures Ascending(HIGHER, Add(index, id, score))
    ensures forall r :: r in Add(index, id, score) <==> r == Rank(id, score) || (r in index && r.id != id)
  {
    var rest := Where(index, Except(index, {id}));
    WhereIs(index, Except(index, {id}));
    RankOrder();
    InsertMembers(HIGHER, Rank(id, score), rest);
    assert Comparable(HIGHER, rest + [Rank(id, score)]);
    InsertAscending(HIGHER, Rank(id, score), rest);
  }

  lemma TouchHashes(s: Board, ttl: int, id: string, mapping: Fields, clear: set<string>, client: int, server: int)
    ensures var s' := Touch(s, ttl, id, mapping, clear, client, server);
            && s'.hashes.Keys == s.hashes.Keys + {id} && s'.hashes[id].deadline == Some(server + ttl)
            && s'.deadline == server + ttl
            && forall k :: k in s.hashes && k != id ==> s'.hashes[k] == s.hashes[k]
  {
    hide Trim, Add;
  }

  lemma TouchIndex(s: Board, ttl: int, id: string, mapping: Fields, clear: set<string>, client: int, server: int)
    requires Ascending(HIGHER, s.index)
    ensures var s' := Touch(s, ttl, id, mapping, clear, client, server);
            && Ascending(HIGHER, s'.index)
            && forall r :: r in s'.index <==>
                 r.score > client - ttl
                 && (r == Rank(id, client) || (server < s.deadline && r in s.index && r.id != id))
  {
    var seen := IndexAt(s, server);
    AddIs(seen, id, client);
    WhereIs(Add(seen, id, client), Above(Add(seen, id, client), client - ttl));
    hide Add, Where;
  }

  /** With the caller's clock agreeing with the server's, an update keeps everything in step:
      trimming drops exactly expired records' ids. */
  lemma TouchSynced(s: Board, ttl: int, id: string, mapping: Fields, clear: set<string>, before: int, now: int)
    requires Synced(s, ttl, before) && before <= now
    ensures Synced(Touch(s, ttl, id, mapping, clear, now, now), ttl, now)
  {
    TouchIndexed(s, ttl, id, mapping, clear, before, now);
    TouchCovered(s, ttl, id, mapping, clear, before, now);
    hide Touch, Covered, Indexed;
  }

  lemma TouchIndexed(s: Board, ttl: int, id: string, mapping: Fields, clear: set<string>, before: int, now: int)
    requires Indexed(s, ttl, before) && before <= now
    ensures Indexed(Touch(s, ttl, id, mapping, clear, now, now), ttl, now)
  {
    TouchHashes(s, ttl, id, mapping, clear, now, now);
    TouchIndex(s, ttl, id, mapping, clear, now, now);
    var s' := Touch(s, ttl, id, mapping, clear, now, now);
    hide Touch, Higher;
    assert forall r :: r in s'.index ==> r == Rank(id, now) || (r in s.index && r.id != id);
  }

  lemma LiveIndexed(s: Board, ttl: int, before: int, now: int, id: string)
    requires Synced(s, ttl, before) && before <= now && LiveAt(s, id, now)
    ensures s.hashes[id].deadline.Some? && now < s.hashes[id].deadline.value <= s.deadline
    ensures var r := Rank(id, s.hashes[id].deadline.value - ttl); r in s.index && r.score <= before
  {
    assert LiveAt(s, id, before);
  }

  lemma HasDeadline(s: Board, ttl: int, now: int, id: string)
    requires Synced(s, ttl, now) && id in s.hashes
    ensures s.hashes[id].deadline.Some?
  {}

  lemma TouchCoversOne(s: Board, ttl: int, id: string, mapping: Fields, clear: set<string>, before: int, now: int, k: string)
    requires Synced(s, ttl, before) && before <= now
    requires LiveAt(Touch(s, ttl, id, mapping, clear, now, now), k, now)
    ensures var s' := Touch(s, ttl, id, mapping, clear, now, now);
            && s'.hashes[k].deadline.Some? && s'.hashes[k].deadline.value <= s'.deadline
            && Rank(k, s'.hashes[k].deadline.value - ttl) in s'.index
  {
    hide Touch;
    TouchHashes(s, ttl, id, mapping, clear, now, now);
    if k != id { LiveIndexed(s, ttl, before, now, k); }
    assert Ascending(HIGHER, s.index);
    hide Synced, Indexed, Covered, Ascending;
    TouchIndex(s, ttl, id, mapping, clear, now, now);
  }

  lemma TouchCovered(s: Board, ttl: int, id: string, mapping: Fields, clear: set<string>, before: int, now: int)
    requires Synced(s, ttl, before) && before <= now
    ensures Covered(Touch(s, ttl, id, mapping, clear, now, now), ttl, now)
  {
    hide Touch, Synced, Live, IndexAt;
    var s' := Touch(s, ttl, id, mapping, clear, now, now);
    forall k | k in s'.hashes ensures s'.hashes[k].deadline.Some? {
      TouchHashes(s, ttl, id, mapping, clear, now, now);
      if k != id { HasDeadline(s, ttl, before, k); }
    }
    forall k | LiveAt(s', k, now)
      ensures Rank(k, s'.hashes[k].deadline.value - ttl) in s'.index && s'.hashes[k].deadline.value <= s'.deadline
    {
      TouchCoversOne(s, ttl, id, mapping, clear, before, now, k);
    }
  }

  lemma SweepSynced(s: Board, ttl: int, before: int, now: int)
    requires Synced(s, ttl, before) && before <= now
    ensures Synced(Swept(s, now), ttl, now)
  {
    SweptIs(s, now);
    hide Swept, Ascending;
    assert Indexed(Swept(s, now), ttl, now);
    hide Indexed;
    forall id | LiveAt(Swept(s, now), id, now)
      ensures s.hashes[id].deadline.Some? && s.hashes[id].deadline.value <= s.deadline
      ensures Rank(id, s.hashes[id].deadline.value - ttl) in Swept(s, now).index
    {
      LiveIndexed(s, ttl, before, now, id);
    }
  }

  // ---------------------------------------------------------------- listing

  /** `live` lists every live record once, newest update first (an update's time is one TTL
      before the deadline it set). */
  ghost predicate NewestLive(s: Board, ttl: int, now: int, live: seq<Rank>) {
    && Ascending(HIGHER, live)
    && forall r :: r in live <==> LiveAt(s, r.id, now) && s.hashes[r.id].deadline == Some(r.score + ttl)
  }

  /** Expired ids rank after every live one: the live records are a prefix of the index. */
  lemma LivePrefix(s: Board, ttl: int, now: int, live: seq<Rank>)
    requires Synced(s, ttl, now) && NewestLive(s, ttl, now, live)
    ensures |live| <= |IndexAt(s, now)| && IndexAt(s, now)[..|live|] == live
    ensures forall k :: |live| <= k < |IndexAt(s, now)| ==> !LiveAt(s, IndexAt(s, now)[k].id, now)
  {
    var ix := IndexAt(s, now);
    var keep := Above(ix, now - ttl);
    WhereIs(ix, keep);
    RankOrder();
    forall r ensures r in live <==> r in Where(ix, keep) {
      if r in live { assert r == Rank(r.id, s.hashes[r.id].deadline.value - ttl); }
    }
    AscendingUnique(HIGHER, live, Where(ix, keep));
    assert Falling(ix);
    HighPrefix(ix, keep, now - ttl);
  }

  lemma WhereHead(index: seq<Rank>, keep: set<Rank>)
    requires index != []
    ensures Where(index, keep)
         == if index[0] in keep then [index[0]] + Where(index[1..], keep) else Where(index[1..], keep)
  {}

  /** Scores do not rise along the index. */
  ghost predicate Falling(index: seq<Rank>) { forall i, j :: 0 <= i < j < |index| ==> index[i].score >= index[j].score }

  lemma {:induction false} HighPrefix(index: seq<Rank>, keep: set<Rank>, cut: int)
    requires Falling(index) && forall r | r in index :: r in keep <==> r.score > cut
    ensures var top := Where(index, keep);
            && |top| <= |index| && index[..|top|] == top
            && forall k :: |top| <= k < |index| ==> index[k].score <= cut
  {
    if index != [] {
      hide Where;
      var rest := index[1..];
      WhereHead(index, keep);
      assert index[0] in index && forall r | r in rest :: r in index;
      if index[0].score > cut {
        HighPrefix(rest, keep, cut);
        assert forall k | 0 < k < |index| :: index[k] == rest[k - 1];
      } else {
        assert forall k | 0 <= k < |index| :: index[k].score <= index[0].score;
        forall r | r in index ensures r !in keep {}
        NothingKept(rest, keep);
      }
    }
  }

  lemma {:induction false} NothingKept(index: seq<Rank>, keep: set<Rank>)
    requires forall r | r in index :: r !in keep
    ensures Where(index, keep) == []
  {
    if index != [] {
      assert index[0] in index && forall r | r in index[1..] :: r in index;
      NothingKept(index[1..], keep);
    }
  }

  /** One scanned id.  Its row comes next in the listing when its hash is there, has not expired
      and, if a state is asked for, shows that state; it adds nothing otherwise. */
  lemma {:induction false} RowAt(s: Board, ids: seq<Rank>, k: nat, state: Option<string>, now: int)
    requires k < |ids|
    ensures var rows, n, id := Rows(s, ids, state, now), |Rows(s, ids[..k], state, now)|, ids[k].id;
            && Rows(s, ids[..k], state, now) <= Rows(s, ids[..k + 1], state, now) <= rows
            && if id in s.hashes && (s.hashes[id].deadline.Some? ==> now < s.hashes[id].deadline.value)
                  && (state.Some? ==> "state" in s.hashes[id].value && s.hashes[id].value["state"] == state.value)
               then n < |rows| && rows[n] == s.hashes[id].value && |Rows(s, ids[..k + 1], state, now)| == n + 1
               else |Rows(s, ids[..k + 1], state, now)| == n
  {
    if k < |ids| - 1 {
      var pre := ids[..|ids| - 1];
      assert pre[..k] == ids[..k] && pre[..k + 1] == ids[..k + 1] && pre[k] == ids[k];
      RowAt(s, pre, k, state, now);
    } else {
      assert ids[..k + 1] == ids;
    }
  }

  /** The asked page of a list by positions. */
  lemma SliceIs<T>(full: seq<T>, offset: nat, limit: nat)
    ensures var r := Slice(full, offset, limit);
            && |r| == (if offset >= |full| then 0 else if |full| - offset <= limit then |full| - offset else limit)
            && forall i | 0 <= i < |r| :: r[i] == full[offset + i]
  {}

  /** On any board a listing, by positions, is its page of the rows of the first thousand ids. */
  lemma ListIsPage(s: Board, state: Option<string>, limit: nat, offset: nat, now: int)
    ensures var full := Rows(s, if now >= s.deadline then []
                                else if |s.index| <= 1000 then s.index else s.index[..1000],
                             state, now);
            var r := ListAt(s, state, limit, offset, now);
            && |r| == (if offset >= |full| then 0 else if |full| - offset <= limit then |full| - offset else limit)
            && forall i | 0 <= i < |r| :: r[i] == full[offset + i]
  {
    SliceIs(Rows(s, Take(IndexAt(s, now), SCANNED), state, now), offset, limit);
    hide Rows, Slice;
  }

  /** What a listing removes from the index: of the first thousand ids, those whose record is
      missing or has expired. */
  lemma SweptIs(s: Board, now: int)
    ensures var s' := Swept(s, now);
            && s'.hashes == s.hashes && s'.deadline == s.deadline
            && (Ascending(HIGHER, s.index) ==> Ascending(HIGHER, s'.index))
            && (forall r :: r in s'.index ==> r in s.index)
            && (now >= s.deadline ==> s'.index == s.index)
            && (now < s.deadline ==>
                  forall r | r in s.index ::
                    r !in s'.index <==>
                      exists k | 0 <= k < |s.index| && k < 1000 :: s.index[k].id == r.id && !LiveAt(s, r.id, now))
  {
    var stale := Stale(s, now);
    WhereIs(s.index, Except(s.index, stale));
    if now >= s.deadline { AllKept(s.index, Except(s.index, stale)); }
    var ids := Take(IndexAt(s, now), SCANNED);
    forall r | r in s.index && now < s.deadline
      ensures r.id in stale <==>
                exists k | 0 <= k < |s.index| && k < 1000 :: s.index[k].id == r.id && !LiveAt(s, r.id, now)
    {
      if r.id in stale {
        var q :| q in ids && !LiveAt(s, q.id, now) && q.id == r.id;
        var k :| 0 <= k < |ids| && ids[k] == q;
        assert s.index[k].id == r.id;
      }
      if k :| 0 <= k < |s.index| && k < 1000 && s.index[k].id == r.id && !LiveAt(s, r.id, now) {
        assert ids[k] in ids;
      }
    }
    hide Where, LiveAt;
  }

  lemma {:induction false} AllKept(index: seq<Rank>, all: set<Rank>)
    requires forall r :: r in index ==> r in all
    ensures Where(index, all) == index
  {
    if index != [] {
      assert forall r :: r in index[1..] ==> r in index;
      AllKept(index[1..], all);
    }
  }

  lemma {:induction false} RowsOfDead(s: Board, a: seq<Rank>, b: seq<Rank>, state: Option<string>, now: int)
    requires forall k :: 0 <= k < |b| ==> !LiveAt(s, b[k].id, now)
    ensures Rows(s, a + b, state, now) == Rows(s, a, state, now)
  {
    hide InState;
    if b == [] {
      assert a + b == a;
    } else {
      var n := |b| - 1;
      assert (a + b)[..|a + b| - 1] == a + b[..n] && (a + b)[|a + b| - 1] == b[n];
      RowsOfDead(s, a, b[..n], state, now);
    }
  }

  /** A listing is the asked slice of the state-filtered newest thousand live records. */
  lemma ListExact(s: Board, ttl: int, now: int, live: seq<Rank>, state: Option<string>, limit: nat, offset: nat)
    requires Synced(s, ttl, now) && NewestLive(s, ttl, now, live)
    ensures var full := Rows(s, if |live| <= 1000 then live else live[..1000], state, now);
            var r := ListAt(s, state, limit, offset, now);
            && |r| == (if offset >= |full| then 0 else if |full| - offset <= limit then |full| - offset else limit)
            && forall i | 0 <= i < |r| :: r[i] == full[offset + i]
  {
    ListSlices(s, ttl, now, live, state, limit, offset);
    SliceIs(Rows(s, Take(live, SCANNED), state, now), offset, limit);
    hide Synced, NewestLive, Rows, ListAt, Slice;
  }

  lemma ListSlices(s: Board, ttl: int, now: int, live: seq<Rank>, state: Option<string>, limit: nat, offset: nat)
    requires Synced(s, ttl, now) && NewestLive(s, ttl, now, live)
    ensures ListAt(s, state, limit, offset, now)
         == Slice(Rows(s, Take(live, SCANNED), state, now), offset, limit)
  {
    LivePrefix(s, ttl, now, live);
    hide Synced, NewestLive, Rows, LiveAt, Slice;
    var scanned := Take(IndexAt(s, now), SCANNED);
    if |live| >= SCANNED {
      assert scanned == Take(live, SCANNED);
    } else {
      assert scanned == live + scanned[|live|..];
      RowsOfDead(s, live, scanned[|live|..], state, now);
    }
  }

  /** An update by a caller whose clock agrees with the server's trims exactly the expired. */
  lemma TrimsExactlyExpired(s: Board, ttl: int, id: string, mapping: Fields, clear: set<string>,
                            before: int, now: int, r: Rank)
    requires Synced(s, ttl, before) && before <= now && r in IndexAt(s, now) && r.id != id
    ensures r in Touch(s, ttl, id, mapping, clear, now, now).index <==> LiveAt(s, r.id, now)
  {
    TouchIndex(s, ttl, id, mapping, clear, now, now);
    hide Touch;
  }

  /** Clocks that disagree can lose a live record: on any board an update drops the id of
      another live record exactly when the caller's clock is a whole TTL past the time that
      record's last caller wrote. */
  lemma SkewLosesLiveIff(s: Board, ttl: int, id: string, mapping: Fields, clear: set<string>, client: int, server: int,
                         r: Rank)
    requires Ascending(HIGHER, s.index) && r in IndexAt(s, server) && r.id != id
    ensures var s' := Touch(s, ttl, id, mapping, clear, client, server);
            LiveAt(s', r.id, server) && r !in s'.index <==> LiveAt(s, r.id, server) && r.score + ttl <= client
  {
    hide Touch;
    TouchHashes(s, ttl, id, mapping, clear, client, server);
    TouchIndex(s, ttl, id, mapping, clear, client, server);
  }

  // ---------------------------------------------------------------- history

  const EMPTY_BOARD := Board(map[], [], 0)

  /** The lifecycle updates, with the texts they store. */
  datatype Mark =
    | Queued(name: string, args: string, kwargs: string, labels: string, at: string)
    | Running(at: string)
    | Success(at: string, executionTime: string)
    | Failed(at: string, error: string, errorType: string)

  datatype Event =
    | Marked(id: string, mark: Mark, client: int, server: int) // the caller's clock and the server's
    | Listed(server: int)

  const RUNTIME_FIELDS: set<string> := {"started_at", "finished_at", "error", "error_type", "execution_time"}

  const QUEUED_FIELDS: set<string> :=
    {"task_id", "task_name", "state", "args", "kwargs", "labels", "queued_at"}

  function StateOf(m: Mark): string {
    match m
    case Queued(_, _, _, _, _) => "queued"
    case Running(_) => "running"
    case Success(_, _) => "success"
    case Failed(_, _, _) => "failed"
  }

  function MappingOf(id: string, m: Mark): Fields {
    match m
    case Queued(name, args, kwargs, labels, at) =>
      map["task_id" := id, "task_name" := name, "state" := "queued", "args" := args, "kwargs" := kwargs,
          "labels" := labels, "queued_at" := at]
    case Running(at) => map["state" := "running", "started_at" := at]
    case Success(at, time) => map["state" := "success", "finished_at" := at, "execution_time" := time]
    case Failed(at, error, errorType) =>
      map["state" := "failed", "finished_at" := at, "error" := error, "error_type" := errorType]
  }

  function ClearOf(m: Mark): set<string> { if m.Queued? then RUNTIME_FIELDS else {} }

  function MarkAt(s: Board, ttl: int, id: string, m: Mark, client: int, server: int): Board {
    Touch(s, ttl, id, MappingOf(id, m), ClearOf(m), client, server)
  }

  function BoardAfter(ttl: int, log: seq<Event>): Board {
    if log == [] then EMPTY_BOARD
    else
      var s := BoardAfter(ttl, log[..|log| - 1]);
      match log[|log| - 1]
      case Marked(id, m, client, server) => MarkAt(s, ttl, id, m, client, server)
      case Listed(server) => Swept(s, server)
  }

  /** The server's clock never steps back. */
  predicate Clocked(log: seq<Event>, now: int) {
    log == [] || (log[|log| - 1].server <= now && Clocked(log[..|log| - 1], log[|log| - 1].server))
  }

  /** The callers' clocks agree with the server's. */
  predicate Agreeing(log: seq<Event>) { forall e | e in log :: e.Marked? ==> e.client == e.server }

  /** What one task's own updates make of it: the last of them, when on either clock, and the
      fields they leave, starting over whenever a whole TTL passed without one. */
  datatype Record = Record(mark: Mark, client: int, server: int, fields: Fields)

  function RecordOf(ttl: int, log: seq<Event>, id: string): Option<Record> {
    if log == [] then None
    else
      var r := RecordOf(ttl, log[..|log| - 1], id);
      match log[|log| - 1]
      case Listed(_) => r
      case Marked(k, m, client, server) =>
        if k != id then r
        else Some(Record(m, client, server, Kept(r, ttl, server) - ClearOf(m) + MappingOf(id, m)))
  }

  /** The record is less than a TTL old. */
  predicate Current(r: Option<Record>, ttl: int, now: int) { r.Some? && now < r.value.server + ttl }

  function Kept(r: Option<Record>, ttl: int, now: int): Fields {
    if Current(r, ttl, now) then r.value.fields else map[]
  }

  /** The server's keys hold each task's own record until one TTL after its last update. */
  ghost predicate Holds(s: Board, ttl: int, log: seq<Event>, id: string) {
    var r := RecordOf(ttl, log, id);
    && (id in s.hashes <==> r.Some?)
    && (r.Some? ==> s.hashes[id] == Entry(r.value.fields, Some(r.value.server + ttl)))
  }

  lemma {:induction false} HistoryHolds(ttl: int, log: seq<Event>, id: string)
    ensures Holds(BoardAfter(ttl, log), ttl, log, id)
  {
    if log != [] {
      HistoryHolds(ttl, log[..|log| - 1], id);
      hide Trim, Add, Where, MappingOf, ClearOf;
    }
  }

  /** A task reads back as what its own updates left while the last is less than a TTL old, and
      as nothing after that. */
  lemma HistoryFinds(ttl: int, log: seq<Event>, id: string, now: int)
    ensures var r := RecordOf(ttl, log, id);
            Get(BoardAfter(ttl, log).hashes, id, now) == if Current(r, ttl, now) then Some(r.value.fields) else None
  {
    HistoryHolds(ttl, log, id);
    hide BoardAfter, RecordOf;
  }

  lemma {:induction false} HistorySynced(ttl: int, log: seq<Event>, now: int)
    requires Clocked(log, now) && Agreeing(log)
    ensures Synced(BoardAfter(ttl, log), ttl, now)
  {
    if log != [] {
      var e, pre := log[|log| - 1], log[..|log| - 1];
      var s := BoardAfter(ttl, pre);
      assert log == pre + [e];
      HistorySynced(ttl, pre, e.server);
      match e {
        case Marked(id, m, _, at) => TouchSynced(s, ttl, id, MappingOf(id, m), ClearOf(m), at, at);
        case Listed(at) => SweepSynced(s, ttl, at, at);
      }
      assert e.Marked? ==> e.client == e.server;
      hide BoardAfter, Swept, Touch, Indexed, Covered;
      BoardStep(ttl, log);
      SyncedLater(BoardAfter(ttl, log), ttl, e.server, now);
    }
  }

  lemma BoardStep(ttl: int, log: seq<Event>)
    requires log != []
    ensures var s := BoardAfter(ttl, log[..|log| - 1]);
            BoardAfter(ttl, log) == match log[|log| - 1]
                                    case Marked(id, m, client, server) =>
                                      Touch(s, ttl, id, MappingOf(id, m), ClearOf(m), client, server)
                                    case Listed(server) => Swept(s, server)
  {}

  lemma SyncedLater(s: Board, ttl: int, before: int, now: int)
    requires Synced(s, ttl, before) && before <= now
    ensures Synced(s, ttl, now)
  {
    forall id | LiveAt(s, id, now)
      ensures s.hashes[id].deadline.Some?
      ensures Rank(id, s.hashes[id].deadline.value - ttl) in s.index && s.hashes[id].deadline.value <= s.deadline
    {
      LiveIndexed(s, ttl, before, now, id);
    }
  }

  /** Each record shows the state of its task's last update, and a queued one nothing else
      than its own fields. */
  lemma {:induction false} RecordShape(ttl: int, log: seq<Event>, id: string)
    requires RecordOf(ttl, log, id).Some?
    ensures var r := RecordOf(ttl, log, id).value;
            && r.fields.Keys <= QUEUED_FIELDS + RUNTIME_FIELDS
            && "state" in r.fields && r.fields["state"] == StateOf(r.mark)
            && (r.mark.Queued? ==> r.fields == MappingOf(id, r.mark))
  {
    var pre := log[..|log| - 1];
    if RecordOf(ttl, pre, id).Some? { RecordShape(ttl, pre, id); }
  }

  // ------------------------------------------------- clocks that disagree

  /** A later update's caller was a whole TTL past the time of this task's last one. */
  predicate Trimmed(ttl: int, log: seq<Event>, id: string) {
    log != []
    && var pre := log[..|log| - 1];
       match log[|log| - 1]
       case Listed(_) => Trimmed(ttl, pre, id)
       case Marked(k, _, client, _) =>
         if k == id then ttl <= 0
         else Trimmed(ttl, pre, id) || (var r := RecordOf(ttl, pre, id); r.Some? && r.value.client + ttl <= client)
  }

  /** The index ranks the task by its last caller's clock, or not at all; while its record is
      current the index lasts, and ranks it unless it was trimmed. */
  ghost predicate Placed(s: Board, ttl: int, log: seq<Event>, id: string, now: int) {
    var r := RecordOf(ttl, log, id);
    && (r.Some? ==> r.value.server <= now)
    && (forall q :: q in s.index && q.id == id ==> r.Some? && q.score == r.value.client)
    && (Current(r, ttl, now) ==>
          r.value.server + ttl <= s.deadline && (Rank(id, r.value.client) in s.index <==> !Trimmed(ttl, log, id)))
  }

  lemma TouchPlaced(s: Board, ttl: int, pre: seq<Event>, e: Event, id: string)
    requires e.Marked? && Ascending(HIGHER, s.index) && Placed(s, ttl, pre, id, e.server)
    ensures var s' := MarkAt(s, ttl, e.id, e.mark, e.client, e.server);
            Ascending(HIGHER, s'.index) && Placed(s', ttl, pre + [e], id, e.server)
  {
    var log, m, c := pre + [e], MappingOf(e.id, e.mark), ClearOf(e.mark);
    assert log[..|log| - 1] == pre && log[|log| - 1] == e;
    TouchHashes(s, ttl, e.id, m, c, e.client, e.server);
    TouchIndex(s, ttl, e.id, m, c, e.client, e.server);
    hide Touch, MappingOf, ClearOf, Ascending;
  }

  lemma SweepPlaced(s: Board, ttl: int, pre: seq<Event>, e: Event, id: string)
    requires e.Listed? && Ascending(HIGHER, s.index) && Placed(s, ttl, pre, id, e.server) && Holds(s, ttl, pre, id)
    ensures Ascending(HIGHER, Swept(s, e.server).index) && Placed(Swept(s, e.server), ttl, pre + [e], id, e.server)
  {
    var log := pre + [e];
    assert log[..|log| - 1] == pre && log[|log| - 1] == e;
    WhereIs(s.index, Except(s.index, Stale(s, e.server)));
    hide Where, RecordOf, Trimmed, Ascending;
    SameTask(ttl, pre, e, id);
  }

  lemma SameTask(ttl: int, pre: seq<Event>, e: Event, id: string)
    requires e.Listed?
    ensures RecordOf(ttl, pre + [e], id) == RecordOf(ttl, pre, id)
    ensures Trimmed(ttl, pre + [e], id) == Trimmed(ttl, pre, id)
  {
    assert (pre + [e])[..|pre|] == pre;
  }

  /** Over any history, with any callers' clocks: the index is in order, ranks each task at most
      once, by its last caller's clock, and holds a current one exactly when no later update's
      caller was a whole TTL past it. */
  lemma {:induction false} HistoryPlaced(ttl: int, log: seq<Event>, id: string, now: int)
    requires Clocked(log, now)
    ensures Ascending(HIGHER, BoardAfter(ttl, log).index) && Placed(BoardAfter(ttl, log), ttl, log, id, now)
  {
    if log != [] {
      var e, pre := log[|log| - 1], log[..|log| - 1];
      assert log == pre + [e] && e.server <= now && Clocked(pre, e.server);
      hide BoardAfter, Swept, Touch, Placed, Holds, Ascending, Clocked;
      var s := BoardAfter(ttl, pre);
      HistoryPlaced(ttl, pre, id, e.server);
      HistoryHolds(ttl, pre, id);
      if e.Marked? { TouchPlaced(s, ttl, pre, e, id); } else { SweepPlaced(s, ttl, pre, e, id); }
      BoardStep(ttl, log);
      PlacedLater(BoardAfter(ttl, log), ttl, log, id, e.server, now);
    }
  }

  lemma PlacedLater(s: Board, ttl: int, log: seq<Event>, id: string, before: int, now: int)
    requires Placed(s, ttl, log, id, before) && before <= now
    ensures Placed(s, ttl, log, id, now)
  {
    hide RecordOf, Trimmed;
  }

  /** Agreeing clocks never trim a current record. */
  lemma {:induction false} AgreeingKeeps(ttl: int, log: seq<Event>, id: string, now: int)
    requires Clocked(log, now) && Agreeing(log) && Current(RecordOf(ttl, log, id), ttl, now)
    ensures RecordOf(ttl, log, id).value.client == RecordOf(ttl, log, id).value.server <= now
    ensures !Trimmed(ttl, log, id)
  {
    var e, pre := log[|log| - 1], log[..|log| - 1];
    assert log == pre + [e];
    if e.Listed? || e.id != id { AgreeingKeeps(ttl, pre, id, e.server); }
  }

  /** The ids, newest caller's time first, whose record is current and still ranked. */
  ghost predicate FoundOf(ttl: int, log: seq<Event>, now: int, found: seq<Rank>) {
    && Ascending(HIGHER, found)
    && forall r :: r in found <==>
         var own := RecordOf(ttl, log, r.id);
         Current(own, ttl, now) && own.value.client == r.score && !Trimmed(ttl, log, r.id)
  }

  function LiveRanks(s: Board, ids: seq<Rank>, now: int): set<Rank> { set r | r in ids && LiveAt(s, r.id, now) }

  lemma {:induction false} WhereSnoc(index: seq<Rank>, r: Rank, keep: set<Rank>)
    ensures Where(index + [r], keep) == Where(index, keep) + if r in keep then [r] else []
  {
    if index == [] {
      assert [] + [r] == [r];
    } else {
      assert (index + [r])[1..] == index[1..] + [r];
      WhereSnoc(index[1..], r, keep);
    }
  }

  lemma RowsSnoc(s: Board, ids: seq<Rank>, r: Rank, state: Option<string>, now: int)
    ensures Rows(s, ids + [r], state, now)
         == Rows(s, ids, state, now) + match Get(s.hashes, r.id, now)
                                       case None => []
                                       case Some(row) => if InState(row, state) then [row] else []
  {
    assert (ids + [r])[..|ids|] == ids;
    hide InState, Get;
  }

  /** Dead ids add no row, wherever they stand. */
  lemma {:induction false} RowsOfLive(s: Board, ids: seq<Rank>, keep: set<Rank>, state: Option<string>, now: int)
    requires forall r :: r in ids ==> (r in keep <==> LiveAt(s, r.id, now))
    ensures Rows(s, Where(ids, keep), state, now) == Rows(s, ids, state, now)
  {
    if ids != [] {
      hide Where, Rows, InState;
      var pre, r := ids[..|ids| - 1], ids[|ids| - 1];
      assert ids == pre + [r] && r in ids && forall q | q in pre :: q in ids;
      RowsOfLive(s, pre, keep, state, now);
      WhereSnoc(pre, r, keep);
      RowsSnoc(s, pre, r, state, now);
      if r in keep {
        RowsSnoc(s, Where(pre, keep), r, state, now);
      } else {
        assert Where(pre, keep) + [] == Where(pre, keep);
        assert Rows(s, pre, state, now) + [] == Rows(s, pre, state, now);
      }
    }
  }

  /** Every history has that listing: the live part of the index. */
  lemma FoundExists(ttl: int, log: seq<Event>, now: int)
    requires Clocked(log, now)
    ensures var s := BoardAfter(ttl, log);
            var ids := IndexAt(s, now);
            FoundOf(ttl, log, now, Where(ids, LiveRanks(s, ids, now)))
  {
    var s := BoardAfter(ttl, log);
    var ids := IndexAt(s, now);
    var keep := LiveRanks(s, ids, now);
    HistoryPlaced(ttl, log, "", now);
    WhereIs(ids, keep);
    forall r: Rank
      ensures r in Where(ids, keep) <==>
        var own := RecordOf(ttl, log, r.id);
        Current(own, ttl, now) && own.value.client == r.score && !Trimmed(ttl, log, r.id)
    {
      HistoryPlaced(ttl, log, r.id, now);
      HistoryHolds(ttl, log, r.id);
      hide BoardAfter, RecordOf, Trimmed, Where;
    }
    hide BoardAfter, RecordOf, Trimmed, Where;
  }

  /** With any clocks, while the index fits one scan, a listing is the asked slice of the tasks
      that are current and still ranked, newest caller's time first. */
  lemma HistoryListFound(ttl: int, log: seq<Event>, now: int, found: seq<Rank>,
                         state: Option<string>, limit: nat, offset: nat)
    requires Clocked(log, now) && FoundOf(ttl, log, now, found)
    requires |IndexAt(BoardAfter(ttl, log), now)| <= 1000
    ensures var full, r := Showing(ttl, log, found, state), ListAt(BoardAfter(ttl, log), state, limit, offset, now);
            && |r| == (if offset >= |full| then 0 else if |full| - offset <= limit then |full| - offset else limit)
            && forall i | 0 <= i < |r| :: r[i] == full[offset + i]
  {
    SliceIs(Showing(ttl, log, found, state), offset, limit);
    FoundSlices(ttl, log, now, found, state, limit, offset);
    hide BoardAfter, Showing, Slice, ListAt;
  }

  lemma FoundSlices(ttl: int, log: seq<Event>, now: int, found: seq<Rank>,
                    state: Option<string>, limit: nat, offset: nat)
    requires Clocked(log, now) && FoundOf(ttl, log, now, found)
    requires |IndexAt(BoardAfter(ttl, log), now)| <= SCANNED
    ensures ListAt(BoardAfter(ttl, log), state, limit, offset, now) == Slice(Showing(ttl, log, found, state), offset, limit)
  {
    var s := BoardAfter(ttl, log);
    var ids := IndexAt(s, now);
    var keep := LiveRanks(s, ids, now);
    FoundExists(ttl, log, now);
    WhereIs(ids, keep);
    RankOrder();
    hide BoardAfter, RecordOf, Trimmed, Showing, Rows, Where;
    AscendingUnique(HIGHER, found, Where(ids, keep));
    RowsOfLive(s, ids, keep, state, now);
    forall k | 0 <= k < |found| ensures LiveAt(s, found[k].id, now) { assert found[k] in Where(ids, keep); }
    RowsShow(ttl, log, now, found, state);
  }

  // ---------------------------------------------------- clocks that agree

  /** The ids, newest update first, whose last update is less than a TTL old. */
  ghost predicate NewestOf(ttl: int, log: seq<Event>, now: int, live: seq<Rank>) {
    && Ascending(HIGHER, live)
    && forall r :: r in live <==>
         var own := RecordOf(ttl, log, r.id); Current(own, ttl, now) && own.value.server == r.score
  }

  /** The records of `ids` whose last update put them in the asked state. */
  function Showing(ttl: int, log: seq<Event>, ids: seq<Rank>, state: Option<string>): seq<Fields> {
    if ids == [] then []
    else
      Showing(ttl, log, ids[..|ids| - 1], state)
      + match RecordOf(ttl, log, ids[|ids| - 1].id)
        case None => []
        case Some(r) => if state.Some? && StateOf(r.mark) != state.value then [] else [r.fields]
  }

  lemma {:induction false} RowsShow(ttl: int, log: seq<Event>, now: int, ids: seq<Rank>, state: Option<string>)
    requires forall k :: 0 <= k < |ids| ==> LiveAt(BoardAfter(ttl, log), ids[k].id, now)
    ensures Rows(BoardAfter(ttl, log), ids, state, now) == Showing(ttl, log, ids, state)
  {
    if ids != [] {
      var n := |ids| - 1;
      RowsShow(ttl, log, now, ids[..n], state);
      HistoryHolds(ttl, log, ids[n].id);
      if RecordOf(ttl, log, ids[n].id).Some? { RecordShape(ttl, log, ids[n].id); }
      hide BoardAfter, RecordOf, StateOf;
    }
  }

  /** Every history has that listing of its live tasks: the unexpired part of the index. */
  lemma NewestExists(ttl: int, log: seq<Event>, now: int)
    requires Clocked(log, now) && Agreeing(log)
    ensures var ix := IndexAt(BoardAfter(ttl, log), now); NewestOf(ttl, log, now, Where(ix, Above(ix, now - ttl)))
  {
    var s := BoardAfter(ttl, log);
    var ix := IndexAt(s, now);
    var live := Where(ix, Above(ix, now - ttl));
    HistorySynced(ttl, log, now);
    WhereIs(ix, Above(ix, now - ttl));
    hide BoardAfter, RecordOf, Where, Agreeing, Clocked, Higher;
    assert Ascending(HIGHER, live);
    hide Ascending;
    forall r: Rank
      ensures r in live <==>
        var own := RecordOf(ttl, log, r.id); Current(own, ttl, now) && own.value.server == r.score
    {
      HistoryHolds(ttl, log, r.id);
      if LiveAt(s, r.id, now) { LiveIndexed(s, ttl, now, now, r.id); }
    }
  }

  /** After any history of updates and listings, a listing is the asked slice of the newest
      thousand tasks updated less than a TTL ago, newest first, each shown with the fields its
      own updates left and picked by the state of the last one. */
  lemma HistoryListExact(ttl: int, log: seq<Event>, now: int, live: seq<Rank>,
                         state: Option<string>, limit: nat, offset: nat)
    requires Clocked(log, now) && Agreeing(log) && NewestOf(ttl, log, now, live)
    ensures var full := Showing(ttl, log, if |live| <= 1000 then live else live[..1000], state);
            var r := ListAt(BoardAfter(ttl, log), state, limit, offset, now);
            && |r| == (if offset >= |full| then 0 else if |full| - offset <= limit then |full| - offset else limit)
            && forall i | 0 <= i < |r| :: r[i] == full[offset + i]
  {
    SliceIs(Showing(ttl, log, Take(live, SCANNED), state), offset, limit);
    HistorySlices(ttl, log, now, live, state, limit, offset);
    hide BoardAfter, Showing, Slice, ListAt;
  }

  /** The log after `k` more listings at `now`. */
  function Polled(log: seq<Event>, now: int, k: nat): seq<Event> {
    if k == 0 then log else Polled(log, now, k - 1) + [Listed(now)]
  }

  lemma {:induction false} PolledSame(ttl: int, log: seq<Event>, now: int, k: nat)
    requires Clocked(log, now) && Agreeing(log)
    ensures Clocked(Polled(log, now, k), now) && Agreeing(Polled(log, now, k))
    ensures forall id :: RecordOf(ttl, Polled(log, now, k), id) == RecordOf(ttl, log, id)
  {
    hide RecordOf;
    if k > 0 {
      var pre := Polled(log, now, k - 1);
      PolledSame(ttl, log, now, k - 1);
      assert (pre + [Listed(now)])[..|pre|] == pre;
      forall id ensures RecordOf(ttl, pre + [Listed(now)], id) == RecordOf(ttl, pre, id) {
        SameTask(ttl, pre, Listed(now), id);
      }
    }
  }

  lemma {:induction false} ShowingSame(ttl: int, a: seq<Event>, b: seq<Event>, ids: seq<Rank>, state: Option<string>)
    requires forall id :: RecordOf(ttl, a, id) == RecordOf(ttl, b, id)
    ensures Showing(ttl, a, ids, state) == Showing(ttl, b, ids, state)
  {
    hide RecordOf, StateOf;
    if ids != [] { ShowingSame(ttl, a, b, ids[..|ids| - 1], state); }
  }

  /** The first `n` pages, each listed on the board the listings before it left. */
  function Pages(ttl: int, log: seq<Event>, state: Option<string>, limit: nat, n: nat, now: int): seq<Fields> {
    if n == 0 then []
    else
      Pages(ttl, log, state, limit, n - 1, now)
      + ListAt(BoardAfter(ttl, Polled(log, now, n - 1)), state, limit, (n - 1) * limit, now)
  }

  /** Asked one after another, the pages at offsets 0, limit, 2 * limit and so on join to the
      whole list, without a gap or a repeat, although each of them sweeps the index. */
  lemma {:induction false} PagesJoin(ttl: int, log: seq<Event>, now: int, live: seq<Rank>,
                                     state: Option<string>, limit: nat, n: nat)
    requires Clocked(log, now) && Agreeing(log) && NewestOf(ttl, log, now, live)
    ensures var full := Showing(ttl, log, if |live| <= 1000 then live else live[..1000], state);
            Pages(ttl, log, state, limit, n, now) == if n * limit <= |full| then full[..n * limit] else full
  {
    hide BoardAfter, Showing, ListAt, RecordOf, Ascending, Clocked, Agreeing, Polled;
    if n > 0 {
      var ids := if |live| <= 1000 then live else live[..1000];
      var full := Showing(ttl, log, ids, state);
      var polled := Polled(log, now, n - 1);
      PagesJoin(ttl, log, now, live, state, limit, n - 1);
      PolledSame(ttl, log, now, n - 1);
      ShowingSame(ttl, polled, log, ids, state);
      assert NewestOf(ttl, polled, now, live);
      HistoryListExact(ttl, polled, now, live, state, limit, (n - 1) * limit);
      var page := ListAt(BoardAfter(ttl, polled), state, limit, (n - 1) * limit, now);
      NextPage(full, page, (n - 1) * limit, limit);
      assert n * limit == (n - 1) * limit + limit;
    }
  }

  lemma NextPage<T>(full: seq<T>, page: seq<T>, offset: nat, limit: nat)
    requires |page| == (if offset >= |full| then 0 else if |full| - offset <= limit then |full| - offset else limit)
    requires forall i | 0 <= i < |page| :: page[i] == full[offset + i]
    ensures (if offset <= |full| then full[..offset] else full) + page
         == if offset + limit <= |full| then full[..offset + limit] else full
  {}

  lemma HistorySlices(ttl: int, log: seq<Event>, now: int, live: seq<Rank>,
                      state: Option<string>, limit: nat, offset: nat)
    requires Clocked(log, now) && Agreeing(log) && NewestOf(ttl, log, now, live)
    ensures ListAt(BoardAfter(ttl, log), state, limit, offset, now)
         == Slice(Showing(ttl, log, Take(live, SCANNED), state), offset, limit)
  {
    var s := BoardAfter(ttl, log);
    HistorySynced(ttl, log, now);
    forall r: Rank ensures r in live <==> LiveAt(s, r.id, now) && s.hashes[r.id].deadline == Some(r.score + ttl) {
      HistoryHolds(ttl, log, r.id);
    }
    hide BoardAfter, RecordOf, Synced, ListAt, Showing, Rows;
    ListSlices(s, ttl, now, live, state, limit, offset);
    var ids := Take(live, SCANNED);
    forall k | 0 <= k < |ids| ensures LiveAt(s, ids[k].id, now) { assert ids[k] in live; }
    RowsShow(ttl, log, now, ids, state);
  }
}
