/** Queue.php: the per-node command log, as a class over its own copy of the queue table. */
module ShardingQueue {
  import opened Wrappers
  import opened QueueRows
  import SqlText
  import TableNames
  import Text

  class Queue {
    /** The bare table name; dequeue reads it, writes go through the cluster prefix. */
    const table: string
    /** The name of the cluster whose prefix writes use ("" when there is none). */
    const clusterName: string

    /** The queue table, in insertion order. */
    var rows: seq<Row>
    var tableExists: bool
    /** The dependency that the next `add` calls record. */
    var waitForId: int
    /** The last id handed out (the hrtime reading of the latest add). */
    var lastId: int
    /** The millisecond clock; every timestamp read advances it by one. */
    var clock: int
    /** The ids of the entries whose command was sent to their node, in sending order. */
    var executed: seq<int>
    /** The table name the latest insert or update addressed. */
    var lastTarget: string

    predicate Valid()
      reads this
    {
      0 <= lastId && Ascending(rows) && forall i :: 0 <= i < |rows| ==> 0 < rows[i].id <= lastId
    }

    constructor(clusterName: string, now: int)
      ensures Valid()
      ensures this.clusterName == clusterName && table == "sharding_queue"
      ensures rows == [] && !tableExists && waitForId == 0 && lastId == 0 && clock == now && executed == []
      ensures lastTarget == ""
    {
      this.clusterName := clusterName;
      table := "sharding_queue";
      rows := [];
      tableExists := false;
      waitForId := 0;
      lastId := 0;
      clock := now;
      executed := [];
      lastTarget := "";
    }

    /** The table name inserts, updates and lookups by id address: the cluster's system
        table name, which is prefixed with the cluster name when that name is truthy. */
    function WriteTable(): (r: string)
      ensures Text.Truthy(clusterName) ==> r == clusterName + ":" + table
      ensures !Text.Truthy(clusterName) ==> r == table
    {
      TableNames.Prefixed(clusterName, table)
    }

    method SetWaitForId(id: int)
      modifies this`waitForId
      ensures waitForId == id
    {
      waitForId := id;
    }

    method ResetWaitForId()
      modifies this`waitForId
      ensures waitForId == 0
    {
      waitForId := 0;
    }

    /** Appends one 'created' row for `nodeId` with a fresh id larger than every id in the
        table, the current wait-for id, no tries and equal creation and update times. The
        query goes into the INSERT as an escaped literal and is stored exactly. */
    method Add(nodeId: string, query: string) returns (id: int)
      requires Valid()
      modifies this`rows, this`lastId, this`clock, this`lastTarget
      ensures Valid() && lastTarget == WriteTable()
      ensures id == old(lastId) + 1 && lastId == id && clock == old(clock) + 1
      ensures rows == old(rows) + [NewRow(id, nodeId, query, waitForId, old(clock))]
    {
      lastTarget := WriteTable();
      var mt := clock;
      clock := clock + 1;
      SqlText.LiteralRoundTrip(query);
      var stored := SqlText.Denoted(SqlText.Literal(query)).value;
      id := lastId + 1;
      lastId := id;
      rows := rows + [Row(id, nodeId, stored, waitForId, 0, Created, mt, mt, 0)];
    }

    /** The row with that id, or nothing; a SELECT that returns no data (`failed`) also
        gives nothing. */
    function GetById(id: int, failed: bool): (r: Option<Row>)
      reads this`rows
      ensures failed ==> r == None
      ensures r.Some? ==> r.value in rows && r.value.id == id
      ensures !failed && r.None? ==> forall i :: 0 <= i < |rows| ==> rows[i].id != id
    {
      if failed then None else Find(rows, id)
    }

    /** The rows for `node` that are not processed and have tries below MAX_TRIES, by
        ascending id; nothing when the SELECT returns no data. */
    method Dequeue(node: string, selectFailed: bool) returns (queries: seq<Row>)
      requires Valid()
      ensures queries == (if selectFailed then [] else Pending(rows, node))
      ensures forall r {:trigger Eligible(r, node)} :: r in queries <==> !selectFailed && r in rows && Eligible(r, node)
      ensures Ascending(queries)
    {
      queries := [];
      if selectFailed {
        return;
      }
      var i := 0;
      while i < |rows|
        invariant 0 <= i <= |rows|
        invariant queries == Pending(rows[..i], node)
      {
        assert rows[..i + 1][..i] == rows[..i];
        if Eligible(rows[i], node) {
          queries := queries + [rows[i]];
        }
        i := i + 1;
      }
      assert rows[..i] == rows;
      PendingMembers(rows, node);
      PendingAscending(rows, node);
    }

    /** The UPDATE of one row's status, tries, update time and duration; `rejected` is
        whether the backend reports an error for it, in which case nothing is written. */
    method UpdateStatus(id: int, status: Status, tries: int, duration: int, rejected: bool) returns (ok: bool)
      requires Valid()
      modifies this`rows, this`clock, this`lastTarget
      ensures Valid() && lastTarget == WriteTable()
      ensures ok == !rejected && clock == old(clock) + 1
      ensures rows == if rejected then old(rows) else SetStatus(old(rows), id, status, tries, old(clock), duration)
    {
      lastTarget := WriteTable();
      var mt := clock;
      clock := clock + 1;
      if !rejected {
        rows := SetStatus(rows, id, status, tries, mt, duration);
      }
      ok := !rejected;
    }

    /** Both status writes use the dequeued tries + 1. */
    method AttemptToUpdateStatus(q: Row, status: Status, duration: int, rejected: bool) returns (ok: bool)
      requires Valid()
      modifies this`rows, this`clock, this`lastTarget
      ensures Valid()
      ensures ok == !rejected && clock == old(clock) + 1 && lastTarget == WriteTable()
      ensures rows == if rejected then old(rows) else SetStatus(old(rows), q.id, status, q.tries + 1, old(clock), duration)
    {
      ok := UpdateStatus(q.id, status, q.tries + 1, duration, rejected);
    }

    /** Skip when the row waits for an existing, unprocessed row and the lookup finds it
        (nothing written), or when marking it 'processing' is rejected; otherwise it is now
        marked. */
    method ShouldSkipQuery(q: Row, replies: Replies) returns (skip: bool)
      requires Valid()
      modifies this`rows, this`clock, this`lastTarget
      ensures Valid()
      ensures skip == (Blocked(old(rows), q, replies) || q.id in replies.markRejected)
      ensures Blocked(old(rows), q, replies) ==> rows == old(rows) && clock == old(clock)
      ensures !Blocked(old(rows), q, replies) ==> clock == old(clock) + 1
      ensures !Blocked(old(rows), q, replies) && q.id in replies.markRejected ==> rows == old(rows)
      ensures !skip ==> rows == Marked(old(rows), q, old(clock))
      ensures lastTarget == (if Blocked(old(rows), q, replies) then old(lastTarget) else WriteTable())
      ensures lastTarget == (if clock == old(clock) then old(lastTarget) else WriteTable())
    {
      if q.waitForId != 0 {
        var waitFor := GetById(q.waitForId, q.id in replies.lookupFailed);
        if waitFor.Some? && waitFor.value.status != Processed {
          return true;
        }
      }
      var ok := AttemptToUpdateStatus(q, Processing, 0, q.id in replies.markRejected);
      skip := !ok;
    }

    /** Sends the row's command and records 'processed' or 'error' from its result. */
    method HandleQuery(node: string, q: Row, replies: Replies)
      requires Valid()
      modifies this`rows, this`clock, this`executed, this`lastTarget
      ensures Valid()
      ensures executed == old(executed) + [q.id] && clock == old(clock) + 1 && lastTarget == WriteTable()
      ensures rows == Finished(old(rows), q, replies, old(clock))
    {
      executed := executed + [q.id];
      var status := if q.id in replies.execFailed then Error else Processed;
      var duration := replies.duration(q.id);
      var _ := AttemptToUpdateStatus(q, status, duration, q.id in replies.finalRejected);
    }

    /** One dispatch pass for `node`: its pending rows in id order, stopping at the first
        one that is skipped. */
    method Process(node: string, replies: Replies)
      requires Valid()
      modifies this`rows, this`clock, this`executed, this`lastTarget
      ensures Valid()
      ensures var p := RunPass(old(rows), if replies.selectFailed then [] else Pending(old(rows), node), replies, old(clock));
        rows == p.rows && clock == p.clock && executed == old(executed) + p.executed
      ensures lastTarget == (if clock == old(clock) then old(lastTarget) else WriteTable())
    {
      var queries := Dequeue(node, replies.selectFailed);
      ghost var final := RunPass(rows, queries, replies, clock);
      ghost var before, clock0, target0 := executed, clock, lastTarget;
      assert before + final.executed == executed + final.executed;
      var i := 0;
      while i < |queries|
        invariant 0 <= i <= |queries| && Valid()
        invariant Continues(rows, clock, executed, queries[i..], replies, final, before)
        invariant clock >= clock0 && lastTarget == (if clock == clock0 then target0 else WriteTable())
      {
        var q := queries[i];
        ghost var rows0, clockI, executed0 := rows, clock, executed;
        assert queries[i..][0] == q;
        var skip := ShouldSkipQuery(q, replies);
        if skip {
          ContinuesSkip(rows0, clockI, executed0, queries[i..], replies, final, before);
          return;
        }
        ghost var marked, clock1 := rows, clock;
        assert clock1 == clockI + 1;
        HandleQuery(node, q, replies);
        assert rows == Finished(marked, q, replies, clock1);
        assert queries[i..][1..] == queries[i + 1..];
        ContinuesStep(rows0, clockI, executed0, queries[i..], replies, final, before, q, marked, clock1, rows,
                      clock, executed, queries[i + 1..]);
        i := i + 1;
        assert Continues(rows, clock, executed, queries[i..], replies, final, before);
      }
      assert queries[i..] == [];
      ContinuesDone(rows, clock, executed, replies, final, before);
    }

    /** The existence check of setup(): a second setup fails; the first creates an empty
        table. */
    method Setup() returns (result: Outcome)
      modifies this`tableExists, this`rows
      ensures old(tableExists) ==> result == Throw(AlreadyInitialized) && rows == old(rows) && tableExists
      ensures !old(tableExists) ==> result == Pass && tableExists && rows == []
    {
      if tableExists {
        return Throw(AlreadyInitialized);
      }
      tableExists := true;
      rows := [];
      result := Pass;
    }
  }
}
