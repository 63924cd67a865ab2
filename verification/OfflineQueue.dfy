/**
 The agent's offline queue and sensor health table.
 */
module OfflineQueue {
  import opened Options

  datatype Message = Message(topic: string, payload: string, priority: int, createdAt: int)

  // The table, keyed by its autoincremented id.
  type Rows = map<int, Message>

  const TELEMETRY: int := 3
  const EVICT_LIMIT: nat := 1000

  ghost function TelemetryIds(rows: Rows): set<int> {
    set id | id in rows && rows[id].priority == TELEMETRY
  }

  // The ids the eviction's subquery selects: up to 1000 telemetry rows, oldest first.
  // Ties in created_at may be broken either way.
  ghost predicate Oldest(rows: Rows, drop: set<int>) {
    && drop <= TelemetryIds(rows)
    && |drop| == (if |TelemetryIds(rows)| < EVICT_LIMIT then |TelemetryIds(rows)| else EVICT_LIMIT)
    && forall d, s | d in drop && s in TelemetryIds(rows) && s !in drop :: rows[d].createdAt <= rows[s].createdAt
  }

  // What one Enqueue may evict: nothing below the limit or when the DELETE fails.
  ghost predicate Evicts(rows: Rows, maxRows: int, evictOk: bool, drop: set<int>) {
    if |rows| >= maxRows && evictOk then Oldest(rows, drop) else drop == {}
  }

  ghost predicate SortedBefore(a: Message, b: Message) {
    a.priority < b.priority || (a.priority == b.priority && a.createdAt <= b.createdAt)
  }

  // A batch: distinct rows in (priority, created_at) order, none of them after a row left
  // out; as many as asked for and available, all of them for a negative limit.
  ghost predicate Batch(rows: Rows, n: int, ids: seq<int>) {
    && (forall i | 0 <= i < |ids| :: ids[i] in rows)
    && (forall i, j | 0 <= i < j < |ids| :: ids[i] != ids[j] && SortedBefore(rows[ids[i]], rows[ids[j]]))
    && (forall i, id | 0 <= i < |ids| && id in rows && id !in ids :: SortedBefore(rows[ids[i]], rows[id]))
    && |ids| == if n < 0 || |rows| < n then |rows| else n
  }

  // Telemetry only, the oldest of it, at most 1000 rows, and all of it if that is fewer.
  lemma OldestIs(rows: Rows, drop: set<int>)
    requires Oldest(rows, drop)
    ensures forall d | d in drop :: d in rows && rows[d].priority == 3
    ensures forall d, s | d in drop && s in rows && s !in drop && rows[s].priority == 3 ::
              rows[d].createdAt <= rows[s].createdAt
    ensures |drop| <= 1000
    ensures |drop| < 1000 ==> forall s | s in rows && s !in drop :: rows[s].priority != 3
  {
    var tel := TelemetryIds(rows);
    if |drop| < 1000 {
      assert |tel - drop| == |tel| - |drop|;
      forall s | s in rows && s !in drop ensures rows[s].priority != 3 {
        assert s in tel ==> s in tel - drop;
      }
    }
  }

  // The rows of `ids`, in order, sort before those left over.
  ghost predicate FirstOnes(rows: Rows, left: set<int>, ids: seq<int>) {
    && left <= rows.Keys
    && (forall id :: id in rows <==> id in left || id in ids)
    && (forall i | 0 <= i < |ids| :: ids[i] in rows && ids[i] !in left)
    && (forall i, j | 0 <= i < j < |ids| :: ids[i] != ids[j] && SortedBefore(rows[ids[i]], rows[ids[j]]))
    && (forall i, id | 0 <= i < |ids| && id in left :: SortedBefore(rows[ids[i]], rows[id]))
  }

  lemma NoneFirst(rows: Rows)
    ensures FirstOnes(rows, rows.Keys, [])
  {
  }

  lemma FirstOnesOn(rows: Rows, left: set<int>, ids: seq<int>, id: int)
    requires FirstOnes(rows, left, ids) && id in left
    requires forall x | x in left :: SortedBefore(rows[id], rows[x])
    ensures FirstOnes(rows, left - {id}, ids + [id])
  {
    hide SortedBefore;
  }

  lemma FirstOnesBatch(rows: Rows, n: int, left: set<int>, ids: seq<int>)
    requires FirstOnes(rows, left, ids) && |ids| == if n < 0 || |rows| < n then |rows| else n
    ensures Batch(rows, n, ids)
  {
    hide SortedBefore;
  }

  lemma BatchOrder(rows: Rows, n: int, ids: seq<int>)
    requires Batch(rows, n, ids)
    ensures forall i | 0 <= i < |ids| :: ids[i] in rows
    ensures forall i, j | 0 <= i < j < |ids| ::
              || rows[ids[i]].priority < rows[ids[j]].priority
              || (rows[ids[i]].priority == rows[ids[j]].priority && rows[ids[i]].createdAt <= rows[ids[j]].createdAt)
    ensures forall i, id | 0 <= i < |ids| && id in rows && id !in ids ::
              || rows[ids[i]].priority < rows[id].priority
              || (rows[ids[i]].priority == rows[id].priority && rows[ids[i]].createdAt <= rows[id].createdAt)
  {
  }

  class Queue {
    var rows: Rows
    var nextId: int
    const maxRows: int
    const retentionDays: int

    ghost predicate Valid()
      reads this
    {
      forall id | id in rows :: id < nextId
    }

    constructor (maxRows: int, retentionDays: int)
      ensures Valid() && rows == map[] && this.maxRows == maxRows && this.retentionDays == retentionDays
    {
      this.maxRows, this.retentionDays := maxRows, retentionDays;
      rows, nextId := map[], 1;
    }

    method SelectOldest() returns (drop: set<int>)
      ensures Oldest(rows, drop)
    {
      var left := set id | id in rows && rows[id].priority == TELEMETRY;
      ghost var all := left;
      assert all == TelemetryIds(rows);
      drop := {};
      while left != {} && |drop| < EVICT_LIMIT
        invariant left <= all && drop == all - left
        invariant |drop| + |left| == |all| && |drop| <= EVICT_LIMIT
        invariant forall d, s | d in drop && s in left :: rows[d].createdAt <= rows[s].createdAt
        decreases left
      {
        var id := OldestOf(left);
        assert left == (left - {id}) + {id} && all - (left - {id}) == drop + {id};
        left := left - {id};
        drop := drop + {id};
      }
    }

    method OldestOf(ids: set<int>) returns (id: int)
      requires ids != {} && ids <= rows.Keys
      ensures id in ids && forall x | x in ids :: rows[id].createdAt <= rows[x].createdAt
    {
      id := Pick(ids);
      var left := ids - {id};
      while left != {}
        invariant id in ids && left <= ids
        invariant forall x | x in ids && x !in left :: rows[id].createdAt <= rows[x].createdAt
        decreases left
      {
        var x := Pick(left);
        if rows[x].createdAt < rows[id].createdAt {
          id := x;
        }
        left := left - {x};
      }
    }

    // A zero priority means telemetry and a missing creation time means now. The flags say
    // whether each of the three statements goes through; a failed eviction is only logged.
    method Enqueue(topic: string, payload: string, priority: int, createdAt: Option<int>, now: int,
                   countOk: bool, evictOk: bool, insertOk: bool)
      returns (ok: bool, ghost drop: set<int>)
      requires Valid()
      modifies this
      ensures Valid() && ok == (countOk && insertOk)
      ensures if countOk then Evicts(old(rows), maxRows, evictOk, drop) else drop == {}
      ensures !ok ==> rows == old(rows) - drop && nextId == old(nextId)
      ensures ok ==> nextId == old(nextId) + 1
                     && rows == (old(rows) - drop)[old(nextId) := Message(topic, payload,
                          if priority == 0 then TELEMETRY else priority,
                          if createdAt.Some? then createdAt.value else now)]
      ensures ok ==> old(nextId) in rows && rows[old(nextId)].priority == if priority == 0 then 3 else priority
      ensures drop != {} ==> countOk && evictOk && |old(rows)| >= maxRows
      ensures forall d | d in drop :: d in old(rows) && old(rows)[d].priority == 3
      ensures forall d, s | d in drop && s in old(rows) && s !in drop && old(rows)[s].priority == 3 ::
                old(rows)[d].createdAt <= old(rows)[s].createdAt
      ensures |drop| <= 1000
      ensures countOk && evictOk && |old(rows)| >= maxRows && |drop| < 1000 ==>
                forall s | s in old(rows) && s !in drop :: old(rows)[s].priority != 3
    {
      hide Oldest;
      var p := if priority == 0 then 3 else priority;
      var at := if createdAt.Some? then createdAt.value else now;
      drop := {};
      if !countOk { return false, {}; }
      if |rows| >= maxRows && evictOk {
        var victims := SelectOldest();
        OldestIs(rows, victims);
        drop := victims;
        rows := rows - victims;
      }
      if !insertOk { return false, drop; }
      rows := rows[nextId := Message(topic, payload, p, at)];
      nextId := nextId + 1;
      return true, drop;
    }

    method PeekBatch(n: int) returns (ids: seq<int>)
      ensures Batch(rows, n, ids)
      ensures forall i | 0 <= i < |ids| :: ids[i] in rows
      ensures forall i, j | 0 <= i < j < |ids| ::
                || rows[ids[i]].priority < rows[ids[j]].priority
                || (rows[ids[i]].priority == rows[ids[j]].priority && rows[ids[i]].createdAt <= rows[ids[j]].createdAt)
      ensures forall i, id | 0 <= i < |ids| && id in rows && id !in ids ::
                || rows[ids[i]].priority < rows[id].priority
                || (rows[ids[i]].priority == rows[id].priority && rows[ids[i]].createdAt <= rows[id].createdAt)
    {
      hide SortedBefore, FirstOnes, Batch;
      ids := [];
      var left := rows.Keys;
      NoneFirst(rows);
      while left != {} && (n < 0 || |ids| < n)
        invariant left <= rows.Keys && FirstOnes(rows, left, ids)
        invariant |ids| + |left| == |rows| && (n < 0 || |ids| <= n)
        decreases left
      {
        var id := FirstOf(left);
        FirstOnesOn(rows, left, ids, id);
        left := left - {id};
        ids := ids + [id];
      }
      FirstOnesBatch(rows, n, left, ids);
      BatchOrder(rows, n, ids);
    }

    method FirstOf(ids: set<int>) returns (id: int)
      requires ids != {} && ids <= rows.Keys
      ensures id in ids && forall x | x in ids :: SortedBefore(rows[id], rows[x])
    {
      id := Pick(ids);
      var left := ids - {id};
      while left != {}
        invariant id in ids && left <= ids
        invariant forall x | x in ids && x !in left :: SortedBefore(rows[id], rows[x])
        decreases left
      {
        var x := Pick(left);
        if rows[x].priority < rows[id].priority
           || (rows[x].priority == rows[id].priority && rows[x].createdAt < rows[id].createdAt) {
          id := x;
        }
        left := left - {x};
      }
    }

    method Delete(id: int)
      requires Valid()
      modifies `rows
      ensures Valid() && id !in rows
      ensures forall other | other != id :: other in rows <==> other in old(rows)
      ensures forall other | other in rows :: rows[other] == old(rows)[other]
    {
      rows := rows - {id};
    }

    method PurgeOld(now: int) returns (count: nat)
      requires Valid()
      modifies `rows
      ensures Valid() && rows == Purged(old(rows), now - retentionDays * 86400)
      ensures forall id :: id in rows <==>
                id in old(rows) && old(rows)[id].createdAt >= now - retentionDays * 86400
      ensures forall id | id in rows :: rows[id] == old(rows)[id]
      ensures count == |old(rows)| - |rows|
    {
      var cutoff := now - retentionDays * 86400;
      var stale := set id | id in rows && rows[id].createdAt < cutoff;
      count := |stale|;
      assert rows.Keys - stale == (rows - stale).Keys;
      RemovedSize(rows, stale);
      rows := rows - stale;
      assert rows == Purged(old(rows), cutoff);
    }
  }

  lemma Nonempty(s: set<int>)
    requires s != {}
    ensures exists x :: x in s
  {
    assert (forall y: int :: y !in s) ==> s == {};
  }

  method Pick(s: set<int>) returns (x: int)
    requires s != {}
    ensures x in s
  {
    Nonempty(s);
    x :| x in s;
  }

  function Purged(rows: Rows, cutoff: int): Rows {
    map id | id in rows && rows[id].createdAt >= cutoff :: rows[id]
  }

  lemma RemovedSize(rows: Rows, gone: set<int>)
    requires gone <= rows.Keys
    ensures |rows - gone| == |rows| - |gone|
  {
    assert (rows - gone).Keys == rows.Keys - gone;
  }

  // ---------------------------------------------------------------- how large the queue gets

  datatype Step =
    | Enqueue(id: int, message: Message, drop: set<int>, stored: bool)
    | Delete(id: int)
    | Purge(cutoff: int)

  // `reliable` queues never fail to evict.
  ghost predicate Enabled(rows: Rows, maxRows: int, reliable: bool, s: Step) {
    match s
    case Enqueue(id, m, drop, stored) =>
      id !in rows && (Evicts(rows, maxRows, true, drop) || (!reliable && Evicts(rows, maxRows, false, drop)))
    case Delete(id) => true
    case Purge(cutoff) => true
  }

  function Next(rows: Rows, s: Step): Rows {
    match s
    case Enqueue(id, m, drop, stored) => if stored then (rows - drop)[id := m] else rows - drop
    case Delete(id) => rows - {id}
    case Purge(cutoff) => Purged(rows, cutoff)
  }

  // Serial runs from an empty queue.
  ghost function Run(maxRows: int, reliable: bool, run: seq<Step>): Option<Rows> {
    if run == [] then Some(map[])
    else match Run(maxRows, reliable, run[..|run| - 1])
      case None => None
      case Some(rows) =>
        var s := run[|run| - 1];
        if Enabled(rows, maxRows, reliable, s) then Some(Next(rows, s)) else None
  }

  ghost predicate Bounded(rows: Rows, maxRows: int) {
    |rows| <= maxRows || |TelemetryIds(rows)| <= 1
  }

  lemma SubsetSize(a: set<int>, b: set<int>)
    requires a <= b
    ensures |a| <= |b|
  {
    assert b == a + (b - a);
  }

  lemma EnqueueKeepsBounded(rows: Rows, maxRows: int, id: int, m: Message, drop: set<int>)
    requires Bounded(rows, maxRows) && id !in rows && Evicts(rows, maxRows, true, drop)
    ensures Bounded((rows - drop)[id := m], maxRows)
  {
    var kept, after := rows - drop, (rows - drop)[id := m];
    var tel := TelemetryIds(rows);
    assert drop <= rows.Keys;
    RemovedSize(rows, drop);
    if |rows| >= maxRows {
      assert TelemetryIds(kept) == tel - drop;
      SubsetSize(TelemetryIds(after), TelemetryIds(kept) + {id});
      if drop == {} {
        assert tel == {};
      }
      if |rows| > maxRows {
        assert |tel - drop| == 0;
      }
    }
  }

  lemma FewerKeepsBounded(rows: Rows, fewer: Rows, maxRows: int)
    requires Bounded(rows, maxRows)
    requires fewer.Keys <= rows.Keys && forall id | id in fewer :: fewer[id] == rows[id]
    ensures Bounded(fewer, maxRows)
  {
    SubsetSize(fewer.Keys, rows.Keys);
    forall id | id in TelemetryIds(fewer) ensures id in TelemetryIds(rows) {
      assert fewer[id] == rows[id];
    }
    SubsetSize(TelemetryIds(fewer), TelemetryIds(rows));
  }

  lemma {:induction false} ReliableIsBounded(maxRows: int, run: seq<Step>)
    requires Run(maxRows, true, run).Some?
    ensures Bounded(Run(maxRows, true, run).value, maxRows)
  {
    if run == [] {
      assert TelemetryIds(map[]) == {};
    } else {
      var before, s := run[..|run| - 1], run[|run| - 1];
      ReliableIsBounded(maxRows, before);
      var rows := Run(maxRows, true, before).value;
      if s.Enqueue? && s.stored {
        EnqueueKeepsBounded(rows, maxRows, s.id, s.message, s.drop);
      } else {
        FewerKeepsBounded(rows, Next(rows, s), maxRows);
      }
    }
  }

  function Sample(): Message {
    Message("", "", TELEMETRY, 0)
  }

  // Telemetry piles up while the eviction fails.
  lemma {:induction false} FillRun(maxRows: int, n: nat) returns (run: seq<Step>)
    ensures Run(maxRows, false, run).Some?
    ensures var rows := Run(maxRows, false, run).value;
            |rows| == n && |TelemetryIds(rows)| == n && forall id | id in rows :: 0 <= id < n
  {
    if n == 0 {
      run := [];
      assert TelemetryIds(map[]) == {};
    } else {
      var shorter := FillRun(maxRows, n - 1);
      var rows := Run(maxRows, false, shorter).value;
      var s := Enqueue(n - 1, Sample(), {}, true);
      run := shorter + [s];
      assert run[..|run| - 1] == shorter;
      assert Evicts(rows, maxRows, false, {});
      assert rows - {} == rows;
      assert TelemetryIds(rows[n - 1 := Sample()]) == TelemetryIds(rows) + {n - 1};
    }
  }

  // The queue holds at most max_queue_rows rows or at most one telemetry row, in every
  // serial run, exactly when its evictions never fail.
  lemma BoundedExactlyWhenReliable(maxRows: int, reliable: bool)
    ensures (forall run | Run(maxRows, reliable, run).Some? :: Bounded(Run(maxRows, reliable, run).value, maxRows))
            <==> reliable
  {
    if reliable {
      forall run | Run(maxRows, true, run).Some? ensures Bounded(Run(maxRows, true, run).value, maxRows) {
        ReliableIsBounded(maxRows, run);
      }
    } else {
      var run := FillRun(maxRows, if maxRows < 0 then 2 else maxRows + 2);
    }
  }

  // In rows: the limit, or one more than the rows that are not telemetry, whichever is
  // larger. Events and command responses are never evicted.
  lemma RowBound(maxRows: int, run: seq<Step>)
    requires Run(maxRows, true, run).Some?
    ensures var rows := Run(maxRows, true, run).value;
            |rows| <= maxRows || |rows| <= |rows.Keys - TelemetryIds(rows)| + 1
  {
    ReliableIsBounded(maxRows, run);
    var rows := Run(maxRows, true, run).value;
    assert rows.Keys == TelemetryIds(rows) + (rows.Keys - TelemetryIds(rows));
  }

  // ---------------------------------------------------------------- batches are determined

  ghost function Elements(s: seq<int>): set<int> {
    set x | x in s
  }

  lemma ElementsLast(s: seq<int>)
    requires s != []
    ensures Elements(s) == Elements(s[..|s| - 1]) + {s[|s| - 1]}
  {
    assert s == s[..|s| - 1] + [s[|s| - 1]];
  }

  lemma {:induction false} DistinctSize(s: seq<int>)
    requires forall i, j | 0 <= i < j < |s| :: s[i] != s[j]
    ensures |Elements(s)| == |s|
  {
    if s == [] {
      assert Elements(s) == {};
    } else {
      var t, x := s[..|s| - 1], s[|s| - 1];
      DistinctSize(t);
      ElementsLast(s);
      assert x !in Elements(t);
    }
  }

  lemma {:induction false} ElementsSize(s: seq<int>)
    ensures |Elements(s)| <= |s|
  {
    if s == [] {
      assert Elements(s) == {};
    } else {
      var t := s[..|s| - 1];
      ElementsSize(t);
      ElementsLast(s);
    }
  }

  // More distinct elements than b is long: one of them is not in b.
  lemma Extra(a: seq<int>, b: seq<int>) returns (k: nat)
    requires forall i, j | 0 <= i < j < |a| :: a[i] != a[j]
    requires |a| > |b|
    ensures k < |a| && a[k] !in b
  {
    DistinctSize(a);
    ElementsSize(b);
    if Elements(a) <= Elements(b) {
      SubsetSize(Elements(a), Elements(b));
    }
    k :| 0 <= k < |a| && a[k] !in b;
  }

  lemma BatchNotLater(rows: Rows, n: int, a: seq<int>, b: seq<int>, i: nat)
    requires Batch(rows, n, a) && Batch(rows, n, b) && i < |a|
    ensures SortedBefore(rows[b[i]], rows[a[i]])
  {
    var k := Extra(a[..i + 1], b[..i]);
    var x := a[k];
    assert forall m | 0 <= m < i :: b[..i][m] == b[m];
    assert k == i || SortedBefore(rows[x], rows[a[i]]);
    if x in b {
      var m :| 0 <= m < |b| && b[m] == x;
      assert m == i || SortedBefore(rows[b[i]], rows[x]);
    }
  }

  // Two batches of the same table and size show the same priorities and times in the same
  // order: only ties are free.
  lemma BatchIsDetermined(rows: Rows, n: int, a: seq<int>, b: seq<int>, i: nat)
    requires Batch(rows, n, a) && Batch(rows, n, b) && i < |a|
    ensures rows[a[i]].priority == rows[b[i]].priority && rows[a[i]].createdAt == rows[b[i]].createdAt
  {
    BatchNotLater(rows, n, a, b, i);
    BatchNotLater(rows, n, b, a, i);
  }

  // ---------------------------------------------------------------- sending a batch

  // Deleting the first message of a batch leaves its rest as the batch of what remains, so
  // peeking and deleting in turn sends the messages in order and skips none.
  lemma DeleteAdvances(rows: Rows, n: int, ids: seq<int>)
    requires ids != [] && Batch(rows, n, ids)
    ensures Batch(rows - {ids[0]}, if n < 0 then n else n - 1, ids[1..])
  {
    var left, rest := rows - {ids[0]}, ids[1..];
    assert left.Keys == rows.Keys - {ids[0]};
    assert forall i | 0 <= i < |rest| :: rest[i] == ids[i + 1];
    forall i, id | 0 <= i < |rest| && id in left && id !in rest ensures SortedBefore(left[rest[i]], left[id]) {
      assert ids == [ids[0]] + rest;
      assert id !in ids;
    }
  }

  function Drained(rows: Rows, ids: seq<int>): Rows
    decreases |ids|
  {
    if ids == [] then rows else Drained(rows - {ids[0]}, ids[1..])
  }

  lemma {:induction false} DrainedIs(rows: Rows, ids: seq<int>)
    ensures Drained(rows, ids) == rows - Elements(ids)
    decreases |ids|
  {
    if ids == [] {
      assert rows - Elements(ids) == rows;
    } else {
      DrainedIs(rows - {ids[0]}, ids[1..]);
      assert ids == [ids[0]] + ids[1..];
      assert Elements(ids) == {ids[0]} + Elements(ids[1..]);
      assert rows - {ids[0]} - Elements(ids[1..]) == rows - Elements(ids);
    }
  }

  // Deleting a whole batch, message by message, removes exactly its rows, and everything that
  // is still queued sorts after everything sent.
  lemma DrainedInOrder(rows: Rows, n: int, ids: seq<int>, i: nat, id: int)
    requires Batch(rows, n, ids) && i < |ids| && id in rows
    ensures id in Drained(rows, ids) <==> id !in ids
    ensures id in Drained(rows, ids) ==> Drained(rows, ids)[id] == rows[id] && SortedBefore(rows[ids[i]], rows[id])
  {
    DrainedIs(rows, ids);
  }

  // ---------------------------------------------------------------- sensor health

  datatype HealthState = Ok | Degraded | FailedState
  datatype Health = Health(fails: int, state: HealthState)

  function SetSensorHealth(h: Option<Health>, ok: bool): Health {
    if ok then Health(0, Ok)
    else match h
      case None => Health(1, Degraded)
      case Some(h') => Health(h'.fails + 1, if h'.fails + 1 >= 5 then FailedState else Degraded)
  }

  function Polls(results: seq<bool>): Option<Health> {
    if results == [] then None
    else Some(SetSensorHealth(Polls(results[..|results| - 1]), results[|results| - 1]))
  }

  function TrailingFailures(results: seq<bool>): nat {
    if results == [] || results[|results| - 1] then 0 else 1 + TrailingFailures(results[..|results| - 1])
  }

  // A channel's health is exactly its number of failures since the last success.
  lemma {:induction false} HealthIsTrailingFailures(results: seq<bool>)
    requires results != []
    ensures var n := TrailingFailures(results);
            Polls(results) == Some(Health(n, if n == 0 then Ok else if n >= 5 then FailedState else Degraded))
  {
    if |results| > 1 {
      HealthIsTrailingFailures(results[..|results| - 1]);
    } else {
      assert results[..0] == [];
    }
  }
}
