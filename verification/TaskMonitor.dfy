/** The monitor of doci/taskiq/monitor.py as it runs: the hashes and the index it rewrites,
    each method proved against the board functions of TaskBoard. */
module TaskMonitor {
  import opened Keyspace
  import opened Options
  import opened Sorting
  import opened TaskBoard
  import opened Text

  lemma {:induction false} WhereSame(index: seq<Rank>, a: set<Rank>, b: set<Rank>)
    requires forall r :: r in index ==> (r in a <==> r in b)
    ensures Where(index, a) == Where(index, b)
  {
    if index != [] {
      assert forall r :: r in index[1..] ==> r in index;
      WhereSame(index[1..], a, b);
    }
  }

  lemma WhereStep(r: Rank, index: seq<Rank>, keep: set<Rank>)
    ensures Where([r] + index, keep) == if r in keep then [r] + Where(index, keep) else Where(index, keep)
  {
    assert ([r] + index)[1..] == index;
  }

  lemma {:induction false} WhereTwice(index: seq<Rank>, a: set<Rank>, b: set<Rank>)
    ensures Where(Where(index, a), b) == Where(index, a * b)
  {
    if index != [] {
      WhereTwice(index[1..], a, b);
      var rest := Where(index[1..], a);
      WhereStep(index[0], index[1..], a);
      WhereStep(index[0], index[1..], a * b);
      WhereStep(index[0], rest, b);
      hide Where;
      assert [index[0]] + index[1..] == index;
    }
  }

  /** Removing one more id. */
  lemma ExceptMore(index: seq<Rank>, gone: set<string>, id: string)
    ensures var rest := Where(index, Except(index, gone));
            Where(rest, Except(rest, {id})) == Where(index, Except(index, gone + {id}))
  {
    var rest := Where(index, Except(index, gone));
    WhereIs(index, Except(index, gone));
    WhereTwice(index, Except(index, gone), Except(rest, {id}));
    WhereSame(index, Except(index, gone) * Except(rest, {id}), Except(index, gone + {id}));
  }

  /** The rows and the stale ids of one more scanned id. */
  lemma ScanStep(s: Board, ids: seq<Rank>, i: nat, state: Option<string>, now: int)
    requires i < |ids|
    ensures var gone := Gone(s, ids[..i], now);
            Gone(s, ids[..i + 1], now) == if LiveAt(s, ids[i].id, now) then gone else gone + {ids[i].id}
    ensures Rows(s, ids[..i + 1], state, now)
         == Rows(s, ids[..i], state, now) + match Get(s.hashes, ids[i].id, now)
                                            case None => []
                                            case Some(row) => if InState(row, state) then [row] else []
  {
    assert ids[..i + 1][..i] == ids[..i] && ids[..i + 1] == ids[..i] + [ids[i]];
    hide LiveAt;
  }

  lemma GetIsLive(s: Board, id: string, now: int)
    ensures LiveAt(s, id, now) <==> Get(s.hashes, id, now).Some?
  {}

  lemma NothingCleared(fields: Fields)
    ensures fields - {} == fields
  {}

  lemma NothingScanned(s: Board, state: Option<string>, now: int)
    ensures Gone(s, [], now) == {} && Rows(s, [], state, now) == []
  {}

  class TaskMonitor {
    const ttl: int
    var hashes: map<string, Entry<Fields>>
    var index: seq<Rank>
    var deadline: int

    ghost function Now(): Board reads this { Board(hashes, index, deadline) }

    constructor (ttl: int)
      ensures this.ttl == ttl && Now() == EMPTY_BOARD
    {
      this.ttl := ttl;
      hashes, index, deadline := map[], [], 0;
    }

    /** `_touch` */
    method Update(id: string, mapping: Fields, clear: set<string>, client: int, server: int)
      modifies this
      ensures Now() == Touch(old(Now()), ttl, id, mapping, clear, client, server)
      ensures hashes == old(hashes)[id := Entry(GetOr(old(hashes), id, server, map[]) - clear + mapping, Some(server + ttl))]
      ensures deadline == server + ttl
      ensures Ascending(HIGHER, old(index)) ==>
                && Ascending(HIGHER, index)
                && forall r :: r in index <==>
                     r.score > client - ttl
                     && (r == Rank(id, client) || (server < old(deadline) && r in old(index) && r.id != id))
    {
      hide Add, Trim, Where, Ascending, Higher;
      if Ascending(HIGHER, index) { TouchIndex(Now(), ttl, id, mapping, clear, client, server); }
      hashes := Put(hashes, id, GetOr(hashes, id, server, map[]) - clear + mapping, server);
      hashes := Expire(hashes, id, ttl, server);
      index := if server < deadline then index else [];
      index := Add(index, id, client);
      deadline := server + ttl;
      index := Trim(index, client - ttl);
    }

    method MarkQueued(id: string, name: string, args: string, kwargs: string, labels: string, at: string,
                      client: int, server: int)
      modifies this
      ensures Now() == MarkAt(old(Now()), ttl, id, Queued(name, args, kwargs, labels, at), client, server)
      ensures hashes == old(hashes)[id :=
                Entry(GetOr(old(hashes), id, server, map[])
                      - {"started_at", "finished_at", "error", "error_type", "execution_time"}
                      + map["task_id" := id, "task_name" := name, "state" := "queued", "args" := args,
                            "kwargs" := kwargs, "labels" := labels, "queued_at" := at],
                      Some(server + ttl))]
    {
      Update(id, map["task_id" := id, "task_name" := name, "state" := "queued", "args" := args,
                     "kwargs" := kwargs, "labels" := labels, "queued_at" := at],
             RUNTIME_FIELDS, client, server);
    }

    method MarkRunning(id: string, at: string, client: int, server: int)
      modifies this
      ensures Now() == MarkAt(old(Now()), ttl, id, Running(at), client, server)
      ensures hashes == old(hashes)[id :=
                Entry(GetOr(old(hashes), id, server, map[]) + map["state" := "running", "started_at" := at],
                      Some(server + ttl))]
    {
      NothingCleared(GetOr(hashes, id, server, map[]));
      Update(id, map["state" := "running", "started_at" := at], {}, client, server);
    }

    method MarkSuccess(id: string, at: string, executionTime: string, client: int, server: int)
      modifies this
      ensures Now() == MarkAt(old(Now()), ttl, id, Success(at, executionTime), client, server)
      ensures hashes == old(hashes)[id :=
                Entry(GetOr(old(hashes), id, server, map[])
                      + map["state" := "success", "finished_at" := at, "execution_time" := executionTime],
                      Some(server + ttl))]
    {
      NothingCleared(GetOr(hashes, id, server, map[]));
      Update(id, map["state" := "success", "finished_at" := at, "execution_time" := executionTime], {}, client, server);
    }

    method MarkFailed(id: string, at: string, error: string, errorType: string, client: int, server: int)
      modifies this
      ensures Now() == MarkAt(old(Now()), ttl, id, Failed(at, error, errorType), client, server)
      ensures hashes == old(hashes)[id :=
                Entry(GetOr(old(hashes), id, server, map[])
                      + map["state" := "failed", "finished_at" := at, "error" := error, "error_type" := errorType],
                      Some(server + ttl))]
    {
      NothingCleared(GetOr(hashes, id, server, map[]));
      Update(id, map["state" := "failed", "finished_at" := at, "error" := error, "error_type" := errorType],
             {}, client, server);
    }

    /** `list`: the asked slice of the scanned live records; the scanned ids whose record is
        gone leave the index, and nothing else changes. */
    method List(state: Option<string>, limit: nat, offset: nat, now: int) returns (r: seq<Fields>)
      modifies this`index
      ensures r == ListAt(old(Now()), state, limit, offset, now)
      ensures Now() == Swept(old(Now()), now)
    {
      ghost var s := Now();
      var ids := Take(if now < deadline then index else [], SCANNED);
      assert ids == Take(IndexAt(s, now), SCANNED);
      AllKept(s.index, Except(s.index, {}));
      hide Where, Except, Gone, Rows, InState, SCANNED, Slice, Take, LiveAt, Get, IndexAt;
      var out := [];
      var i := 0;
      NothingScanned(s, state, now);
      while i < |ids|
        invariant 0 <= i <= |ids| && ids == Take(IndexAt(s, now), SCANNED)
        invariant hashes == s.hashes && deadline == s.deadline
        invariant out == Rows(s, ids[..i], state, now)
        invariant index == Where(s.index, Except(s.index, Gone(s, ids[..i], now)))
      {
        ScanStep(s, ids, i, state, now);
        ExceptMore(s.index, Gone(s, ids[..i], now), ids[i].id);
        GetIsLive(s, ids[i].id, now);
        match Get(hashes, ids[i].id, now) {
          case None =>
            index := Where(index, Except(index, {ids[i].id}));
          case Some(row) =>
            if InState(row, state) { out := out + [row]; }
        }
        i := i + 1;
      }
      assert ids[..i] == ids;
      r := Slice(out, offset, limit);
    }

    method Find(id: string, now: int) returns (r: Option<Fields>)
      ensures r == Get(hashes, id, now)
    {
      r := Get(hashes, id, now);
    }
  }
}
