/** The rows of the sharding queue table and what the queue's statements do to them:
    the SELECT of `dequeue`, the UPDATE of `updateStatus`, and one whole `process` pass
    over a node's pending rows, with the properties that make the queue a per-node,
    dependency-ordered, retry-bounded command log. */
module QueueRows {
  import opened Wrappers

  /** Queue::MAX_TRIES: rows that reached it are never dequeued again. */
  const MaxTries: int := 10

  datatype Status = Created | Processing | Processed | Error

  /** One row of the queue table. `waitForId` 0 means "no dependency". */
  datatype Row = Row(
    id: int,
    node: string,
    query: string,
    waitForId: int,
    tries: int,
    status: Status,
    createdAt: int,
    updatedAt: int,
    duration: int)

  /** The row `add` inserts. */
  function NewRow(id: int, node: string, query: string, waitForId: int, now: int): Row {
    Row(id, node, query, waitForId, 0, Created, now, now, 0)
  }

  /** The table after a run of `add` calls, one per (node, query) job, starting when the
      last id handed out was `lastId` and the clock read `clock`. */
  function Enqueued(rows: seq<Row>, jobs: seq<(string, string)>, waitForId: int, lastId: int, clock: int): (r: seq<Row>)
    ensures |r| == |rows| + |jobs|
  {
    if jobs == [] then rows
    else
      var n := |jobs| - 1;
      Enqueued(rows, jobs[..n], waitForId, lastId, clock) + [NewRow(lastId + 1 + n, jobs[n].0, jobs[n].1, waitForId, clock + n)]
  }

  /** Enqueueing one more job appends exactly its row. */
  lemma EnqueuedStep(rows: seq<Row>, jobs: seq<(string, string)>, i: nat, waitForId: int, lastId: int, clock: int)
    requires i < |jobs|
    ensures Enqueued(rows, jobs[..i + 1], waitForId, lastId, clock) ==
      Enqueued(rows, jobs[..i], waitForId, lastId, clock) + [NewRow(lastId + 1 + i, jobs[i].0, jobs[i].1, waitForId, clock + i)]
  {
    assert jobs[..i + 1][..i] == jobs[..i];
  }

  lemma EnqueuedSnoc(rows: seq<Row>, jobs: seq<(string, string)>, job: (string, string), waitForId: int, lastId: int, clock: int)
    ensures Enqueued(rows, jobs + [job], waitForId, lastId, clock) ==
      Enqueued(rows, jobs, waitForId, lastId, clock) + [NewRow(lastId + 1 + |jobs|, job.0, job.1, waitForId, clock + |jobs|)]
  {
    assert (jobs + [job])[..|jobs|] == jobs;
  }

  /** The enqueued table keeps the old rows as a prefix, and the k-th job's row is the
      k-th new row, with id lastId + 1 + k and creation time clock + k. */
  lemma {:induction false} EnqueuedShape(rows: seq<Row>, jobs: seq<(string, string)>, waitForId: int, lastId: int, clock: int)
    ensures var r := Enqueued(rows, jobs, waitForId, lastId, clock);
      r[..|rows|] == rows &&
      forall k :: 0 <= k < |jobs| ==> r[|rows| + k] == NewRow(lastId + 1 + k, jobs[k].0, jobs[k].1, waitForId, clock + k)
  {
    if jobs != [] {
      var n := |jobs| - 1;
      EnqueuedShape(rows, jobs[..n], waitForId, lastId, clock);
    }
  }

  predicate Ascending(rows: seq<Row>) {
    forall i, j :: 0 <= i < j < |rows| ==> rows[i].id < rows[j].id
  }

  predicate TriesBounded(rows: seq<Row>) {
    forall i :: 0 <= i < |rows| ==> rows[i].tries <= MaxTries
  }

  function Ids(rows: seq<Row>): seq<int> {
    seq(|rows|, i requires 0 <= i < |rows| => rows[i].id)
  }

  /** The WHERE clause of the dequeue SELECT. */
  predicate Eligible(r: Row, node: string) {
    r.node == node && r.status != Processed && r.tries < MaxTries
  }

  /** The rows the dequeue SELECT returns, in table order. */
  function Pending(rows: seq<Row>, node: string): seq<Row> {
    if rows == [] then []
    else
      var last := rows[|rows| - 1];
      Pending(rows[..|rows| - 1], node) + (if Eligible(last, node) then [last] else [])
  }

  lemma {:induction false} PendingMembers(rows: seq<Row>, node: string)
    ensures forall r :: r in Pending(rows, node) <==> r in rows && Eligible(r, node)
  {
    if rows != [] {
      PendingMembers(rows[..|rows| - 1], node);
      assert rows == rows[..|rows| - 1] + [rows[|rows| - 1]];
    }
  }

  /** A row left in 'error' is dequeued again for its node while its tries are below
      MAX_TRIES, and never once they reach it. */
  lemma ErrorRetriedBelowMaxTries(rows: seq<Row>, node: string, i: nat)
    requires i < |rows| && rows[i].node == node && rows[i].status == Error
    ensures rows[i] in Pending(rows, node) <==> rows[i].tries < MaxTries
  {
    PendingMembers(rows, node);
  }

  lemma {:induction false} PendingAscending(rows: seq<Row>, node: string)
    requires Ascending(rows)
    ensures Ascending(Pending(rows, node))
  {
    if rows != [] {
      var init, last := rows[..|rows| - 1], rows[|rows| - 1];
      PendingAscending(init, node);
      PendingMembers(init, node);
      forall r | r in Pending(init, node) ensures r.id < last.id {
        var k :| 0 <= k < |init| && init[k] == r;
      }
    }
  }

  /** getById: the row with that id, or nothing when there is none. */
  function Find(rows: seq<Row>, id: int): (r: Option<Row>)
    ensures r.Some? ==> r.value in rows && r.value.id == id
    ensures r.None? ==> forall i :: 0 <= i < |rows| ==> rows[i].id != id
  {
    if rows == [] then None
    else if rows[0].id == id then Some(rows[0])
    else Find(rows[1..], id)
  }

  lemma {:induction false} FindAt(rows: seq<Row>, i: int)
    requires Ascending(rows) && 0 <= i < |rows|
    ensures Find(rows, rows[i].id) == Some(rows[i])
  {
    if i > 0 {
      FindAt(rows[1..], i - 1);
    }
  }

  /** Find only looks at ids and at the rows carrying the id it is asked for. */
  lemma {:induction false} FindStable(a: seq<Row>, b: seq<Row>, id: int)
    requires |a| == |b| && forall i :: 0 <= i < |a| ==> a[i].id == b[i].id
    ensures Find(a, id).Some? <==> Find(b, id).Some?
    ensures (forall i :: 0 <= i < |a| && a[i].id == id ==> a[i] == b[i]) ==> Find(a, id) == Find(b, id)
  {
    if a != [] {
      FindStable(a[1..], b[1..], id);
    }
  }

  /** The UPDATE of updateStatus: every row with that id gets the new status, tries,
      timestamp and duration; all other rows stay. */
  function SetStatus(rows: seq<Row>, id: int, status: Status, tries: int, now: int, duration: int): (r: seq<Row>)
    ensures |r| == |rows|
    ensures forall i :: 0 <= i < |rows| ==> r[i].id == rows[i].id
    ensures forall i :: 0 <= i < |rows| && rows[i].id != id ==> r[i] == rows[i]
  {
    seq(|rows|, i requires 0 <= i < |rows| =>
      if rows[i].id == id
      then rows[i].(status := status, tries := tries, updatedAt := now, duration := duration)
      else rows[i])
  }

  /** What the backend answers during one `process` pass. */
  datatype Replies = Replies(
    selectFailed: bool,          // the dequeue SELECT came back without a data block
    lookupFailed: set<int>,      // ids whose dependency lookup (getById of their wait_for_id) returns no data
    markRejected: set<int>,      // ids whose update to 'processing' reports an error
    execFailed: set<int>,        // ids whose command result has a non-empty top-level 'error'; an error
                                 // reported only inside the first result set is not looked at
    finalRejected: set<int>,     // ids whose final status update reports an error
    duration: int -> int)        // milliseconds each command took

  /** The status handleQuery decides on from the command's result. */
  function Verdict(q: Row, replies: Replies): Status {
    if q.id in replies.execFailed then Error else Processed
  }

  /** The status the row is left in: the verdict, unless writing it was rejected, in which
      case the row stays 'processing'. */
  function Settled(q: Row, replies: Replies): Status {
    if q.id in replies.finalRejected then Processing else Verdict(q, replies)
  }

  /** The row `q` names by wait_for_id is a row of the table and its lookup did not fail:
      the rows shouldSkipQuery can hold back. */
  predicate WaitsOnRow(rows: seq<Row>, q: Row, replies: Replies) {
    && q.waitForId != 0
    && q.id !in replies.lookupFailed
    && Find(rows, q.waitForId).Some?
  }

  /** shouldSkipQuery's first test: a non-zero wait_for_id naming an existing row that is
      not processed. A missing row does not block, and neither does a lookup that returns
      no data: getById reads it as a missing row. */
  predicate Blocked(rows: seq<Row>, q: Row, replies: Replies) {
    && q.waitForId != 0
    && q.id !in replies.lookupFailed
    && Find(rows, q.waitForId).Some?
    && Find(rows, q.waitForId).value.status != Processed
  }

  /** The table after row `q` was marked 'processing' at `clock`. */
  function Marked(rows: seq<Row>, q: Row, clock: int): seq<Row> {
    SetStatus(rows, q.id, Processing, q.tries + 1, clock, 0)
  }

  /** The table after the verdict for `q` was written at `clock` (unless that write was
      rejected). */
  function Finished(rows: seq<Row>, q: Row, replies: Replies, clock: int): seq<Row> {
    if q.id in replies.finalRejected then rows
    else SetStatus(rows, q.id, Verdict(q, replies), q.tries + 1, clock, replies.duration(q.id))
  }

  /** The table after row `q` was marked, its command run, and its verdict written; both
      writes set tries to the dequeued tries + 1. */
  function Handled(rows: seq<Row>, q: Row, replies: Replies, clock: int): seq<Row> {
    Finished(Marked(rows, q, clock), q, replies, clock + 1)
  }

  /** The effect of a pass: the table, the clock, and the ids whose commands were run. */
  datatype Effect = Effect(rows: seq<Row>, clock: int, executed: seq<int>)

  /** Queue::process over the dequeued rows: handle them in order and stop at the first
      one that is blocked or whose 'processing' update is rejected. Every status update
      reads the clock once. */
  function RunPass(rows: seq<Row>, pending: seq<Row>, replies: Replies, clock: int): (r: Effect)
    ensures |r.rows| == |rows| && forall i :: 0 <= i < |rows| ==> r.rows[i].id == rows[i].id
    decreases |pending|
  {
    if pending == [] then Effect(rows, clock, [])
    else
      var q := pending[0];
      if Blocked(rows, q, replies) then Effect(rows, clock, [])
      else if q.id in replies.markRejected then Effect(rows, clock + 1, [])
      else
        var p := RunPass(Handled(rows, q, replies, clock), pending[1..], replies, clock + 2);
        Effect(p.rows, p.clock, [q.id] + p.executed)
  }

  /** The state reached so far (`rows`, `clock`, the ids `executed`) still leads to the
      pass result `final` (started with `before` executed) once `pending` is run. */
  predicate Continues(rows: seq<Row>, clock: int, executed: seq<int>, pending: seq<Row>, replies: Replies,
                      final: Effect, before: seq<int>) {
    var p := RunPass(rows, pending, replies, clock);
    p.rows == final.rows && p.clock == final.clock && executed + p.executed == before + final.executed
  }

  /** Handling a row that is not skipped keeps the pass on course. */
  lemma ContinuesStep(rows: seq<Row>, clock: int, executed: seq<int>, pending: seq<Row>, replies: Replies,
                      final: Effect, before: seq<int>, q: Row, marked: seq<Row>, mid: int, after: seq<Row>,
                      clock': int, executed': seq<int>, rest: seq<Row>)
    requires Continues(rows, clock, executed, pending, replies, final, before)
    requires pending != [] && q == pending[0] && !Blocked(rows, q, replies) && q.id !in replies.markRejected
    requires marked == Marked(rows, q, clock) && mid == clock + 1
    requires after == Finished(marked, q, replies, mid)
    requires clock' == clock + 2 && executed' == executed + [q.id] && rest == pending[1..]
    ensures Continues(after, clock', executed', rest, replies, final, before)
  {
    var p := RunPass(Handled(rows, pending[0], replies, clock), pending[1..], replies, clock + 2);
    assert RunPass(rows, pending, replies, clock) == Effect(p.rows, p.clock, [pending[0].id] + p.executed);
    assert executed + ([pending[0].id] + p.executed) == (executed + [pending[0].id]) + p.executed;
  }

  /** A skipped row ends the pass: the state reached is the result, after one more clock
      reading when the 'processing' update was rejected. */
  lemma ContinuesSkip(rows: seq<Row>, clock: int, executed: seq<int>, pending: seq<Row>, replies: Replies,
                      final: Effect, before: seq<int>)
    requires Continues(rows, clock, executed, pending, replies, final, before)
    requires pending != [] && (Blocked(rows, pending[0], replies) || pending[0].id in replies.markRejected)
    ensures rows == final.rows && executed == before + final.executed
    ensures final.clock == if Blocked(rows, pending[0], replies) then clock else clock + 1
  {
    assert executed + [] == executed;
  }

  /** With nothing left to run the state reached is the result. */
  lemma ContinuesDone(rows: seq<Row>, clock: int, executed: seq<int>, replies: Replies,
                      final: Effect, before: seq<int>)
    requires Continues(rows, clock, executed, [], replies, final, before)
    ensures rows == final.rows && clock == final.clock && executed == before + final.executed
  {
    assert executed + [] == executed;
  }

  /** A pass runs a prefix of the dequeued rows, in order, and changes no row whose
      command it did not run: nothing after the first skipped row is touched. */
  lemma {:induction false} PassRunsPrefix(rows: seq<Row>, pending: seq<Row>, replies: Replies, clock: int)
    returns (k: nat)
    ensures var p := RunPass(rows, pending, replies, clock);
      && (forall i :: 0 <= i < |rows| && rows[i].id !in p.executed ==> p.rows[i] == rows[i])
      && k <= |pending| && p.executed == Ids(pending[..k])
    decreases |pending|
  {
    var p := RunPass(rows, pending, replies, clock);
    if pending == [] || Blocked(rows, pending[0], replies) || pending[0].id in replies.markRejected {
      k := 0;
      assert p.executed == Ids(pending[..0]);
    } else {
      var q := pending[0];
      var done := Handled(rows, q, replies, clock);
      var k' := PassRunsPrefix(done, pending[1..], replies, clock + 2);
      var p' := RunPass(done, pending[1..], replies, clock + 2);
      k := k' + 1;
      assert p.executed == [q.id] + p'.executed;
      assert [q.id] + Ids(pending[1..][..k']) == Ids(pending[..k]);
      forall i | 0 <= i < |rows| && rows[i].id !in p.executed
        ensures p.rows[i] == rows[i]
      {
        assert done[i] == rows[i];
      }
    }
  }

  /** Every row whose command ran ends with tries = dequeued tries + 1, and with status
      'processed' or 'error' according to the command's result ('processing' if that last
      write was rejected). An 'error' does not stop the pass. */
  lemma {:induction false} PassRecordsVerdict(rows: seq<Row>, pending: seq<Row>, replies: Replies, clock: int)
    requires Ascending(pending)
    ensures var p := RunPass(rows, pending, replies, clock);
      forall i, j :: 0 <= i < |rows| && 0 <= j < |pending| && rows[i].id == pending[j].id
                     && pending[j].id in p.executed ==>
        p.rows[i].tries == pending[j].tries + 1 && p.rows[i].status == Settled(pending[j], replies)
    decreases |pending|
  {
    if pending != [] && !Blocked(rows, pending[0], replies) && pending[0].id !in replies.markRejected {
      var q := pending[0];
      var done := Handled(rows, q, replies, clock);
      var p := RunPass(rows, pending, replies, clock);
      var p' := RunPass(done, pending[1..], replies, clock + 2);
      var k := PassRunsPrefix(done, pending[1..], replies, clock + 2);
      PassRecordsVerdict(done, pending[1..], replies, clock + 2);
      assert q.id !in p'.executed;
      forall i, j | 0 <= i < |rows| && 0 <= j < |pending| && rows[i].id == pending[j].id
                    && pending[j].id in p.executed
        ensures p.rows[i].tries == pending[j].tries + 1 && p.rows[i].status == Settled(pending[j], replies)
      {
        if j > 0 {
          assert pending[j] == pending[1..][j - 1];
        }
      }
    }
  }

  /** No pending row is processed yet: true of what dequeue returns. */
  predicate Unprocessed(rows: seq<Row>, pending: seq<Row>) {
    forall i, j :: 0 <= i < |rows| && 0 <= j < |pending| && rows[i].id == pending[j].id ==>
      rows[i].status != Processed
  }

  /** A row of the table that is already processed is none of the dequeued rows. */
  lemma ProcessedNotPending(rows: seq<Row>, pending: seq<Row>, id: int)
    requires Unprocessed(rows, pending)
    requires Find(rows, id).Some? && Find(rows, id).value.status == Processed
    ensures forall m :: 0 <= m < |pending| ==> pending[m].id != id
  {
    var i :| 0 <= i < |rows| && rows[i] == Find(rows, id).value;
  }

  /** Handling `q` leaves every row carrying its id in the status `q` settles in. */
  lemma HandledSettles(rows: seq<Row>, q: Row, replies: Replies, clock: int, i: int)
    requires 0 <= i < |rows| && rows[i].id == q.id
    ensures Handled(rows, q, replies, clock)[i].status == Settled(q, replies)
  {
  }

  /** If the first row runs, the row it waits for is processed when it starts, and is
      still processed when the pass ends. */
  lemma HeadDependencyProcessed(rows: seq<Row>, pending: seq<Row>, replies: Replies, clock: int)
    requires Ascending(pending) && Unprocessed(rows, pending)
    requires pending != [] && pending[0].id in RunPass(rows, pending, replies, clock).executed
    requires WaitsOnRow(rows, pending[0], replies)
    ensures Find(rows, pending[0].waitForId).value.status == Processed
    ensures var p := RunPass(rows, pending, replies, clock);
      Find(p.rows, pending[0].waitForId).Some?
      && Find(p.rows, pending[0].waitForId).value.status == Processed
  {
    var q := pending[0];
    var w := q.waitForId;
    var dep := Find(rows, w).value;
    var i :| 0 <= i < |rows| && rows[i] == dep;
    assert w != q.id;
    var done := Handled(rows, q, replies, clock);
    FindStable(rows, done, w);
    var p' := RunPass(done, pending[1..], replies, clock + 2);
    var k := PassRunsPrefix(done, pending[1..], replies, clock + 2);
    assert w !in p'.executed by {
      forall m | 0 <= m < k ensures pending[1..][m].id != w {
        assert pending[1..][m] == pending[m + 1];
        assert rows[i].status == Processed;
      }
    }
    FindStable(done, p'.rows, w);
    HandledStep(rows, pending, replies, clock);
  }

  /** Once the first dequeued row is handled, the others are still not processed. */
  lemma HandledUnprocessed(rows: seq<Row>, pending: seq<Row>, replies: Replies, clock: int)
    requires Ascending(pending) && Unprocessed(rows, pending) && pending != []
    ensures Unprocessed(Handled(rows, pending[0], replies, clock), pending[1..])
  {
    var done := Handled(rows, pending[0], replies, clock);
    forall i, j | 0 <= i < |done| && 0 <= j < |pending[1..]| && done[i].id == pending[1..][j].id
      ensures done[i].status != Processed
    {
      assert pending[1..][j] == pending[j + 1];
    }
  }

  /** A row of the pass that runs, waiting on a row of the table (lookup not failed) that
      is none of the dequeued rows, found that row 'processed' before the pass began. */
  lemma {:induction false} PassRunsAfterProcessedDependency(rows: seq<Row>, pending: seq<Row>, replies: Replies, clock: int)
    requires Ascending(pending)
    ensures var p := RunPass(rows, pending, replies, clock);
      forall j :: 0 <= j < |pending| && pending[j].id in p.executed && WaitsOnRow(rows, pending[j], replies)
                  && pending[j].waitForId !in Ids(pending) ==>
        Find(rows, pending[j].waitForId).value.status == Processed
    decreases |pending|
  {
    if pending != [] && !Blocked(rows, pending[0], replies) && pending[0].id !in replies.markRejected {
      var q := pending[0];
      var done := Handled(rows, q, replies, clock);
      var p := RunPass(rows, pending, replies, clock);
      HandledStep(rows, pending, replies, clock);
      PassRunsAfterProcessedDependency(done, pending[1..], replies, clock + 2);
      forall j | 0 <= j < |pending| && pending[j].id in p.executed && WaitsOnRow(rows, pending[j], replies)
                 && pending[j].waitForId !in Ids(pending)
        ensures Find(rows, pending[j].waitForId).value.status == Processed
      {
        if j > 0 {
          var w := pending[j].waitForId;
          assert pending[j] == pending[1..][j - 1];
          assert Ids(pending)[0] == q.id;
          assert w !in Ids(pending[1..]) by {
            forall k | 0 <= k < |pending[1..]| ensures Ids(pending[1..])[k] != w {
              assert Ids(pending[1..])[k] == Ids(pending)[k + 1];
            }
          }
          FindStable(rows, done, w);
          assert WaitsOnRow(done, pending[1..][j - 1], replies);
        }
      }
    }
  }

  /** A row runs only after the row it waits for: when a row of the pass runs and waits on
      a row of the table (lookup not failed) that is one of the dequeued rows, that row
      comes earlier in the pass and its verdict 'processed' was written. */
  lemma {:induction false} PassRunsAfterEarlierDependency(rows: seq<Row>, pending: seq<Row>, replies: Replies, clock: int)
    requires Ascending(pending) && Unprocessed(rows, pending)
    ensures var p := RunPass(rows, pending, replies, clock);
      forall j, m :: 0 <= j < |pending| && 0 <= m < |pending| && pending[j].id in p.executed
                     && WaitsOnRow(rows, pending[j], replies) && pending[m].id == pending[j].waitForId ==>
        m < j && Settled(pending[m], replies) == Processed
    decreases |pending|
  {
    if pending != [] && !Blocked(rows, pending[0], replies) && pending[0].id !in replies.markRejected {
      var q := pending[0];
      var done := Handled(rows, q, replies, clock);
      var p := RunPass(rows, pending, replies, clock);
      HandledStep(rows, pending, replies, clock);
      HandledUnprocessed(rows, pending, replies, clock);
      PassRunsAfterEarlierDependency(done, pending[1..], replies, clock + 2);
      PassRunsAfterProcessedDependency(done, pending[1..], replies, clock + 2);
      if WaitsOnRow(rows, q, replies) {
        ProcessedNotPending(rows, pending, q.waitForId);
      }
      forall j, m | 0 <= j < |pending| && 0 <= m < |pending| && pending[j].id in p.executed
                    && WaitsOnRow(rows, pending[j], replies) && pending[m].id == pending[j].waitForId
        ensures m < j && Settled(pending[m], replies) == Processed
      {
        if j > 0 {
          var w := pending[j].waitForId;
          assert pending[j] == pending[1..][j - 1];
          FindStable(rows, done, w);
          assert WaitsOnRow(done, pending[1..][j - 1], replies);
          if m == 0 {
            assert w !in Ids(pending[1..]) by {
              forall k | 0 <= k < |pending[1..]| ensures pending[1..][k].id != w {
                assert pending[1..][k] == pending[k + 1];
              }
            }
            var r := Find(done, w).value;
            var i :| 0 <= i < |done| && done[i] == r;
            HandledSettles(rows, q, replies, clock, i);
          } else {
            assert pending[m] == pending[1..][m - 1];
          }
        }
      }
    }
  }

  /** A row runs only once the row it waits for is processed: when a run row's wait_for_id
      names a row of the table and its lookup did not fail, that row is 'processed' at the
      end of the pass. */
  lemma {:induction false} PassRespectsDependencies(rows: seq<Row>, pending: seq<Row>, replies: Replies, clock: int)
    requires Ascending(pending) && Unprocessed(rows, pending)
    ensures var p := RunPass(rows, pending, replies, clock);
      forall j :: 0 <= j < |pending| && pending[j].id in p.executed && WaitsOnRow(rows, pending[j], replies) ==>
        Find(p.rows, pending[j].waitForId).Some?
        && Find(p.rows, pending[j].waitForId).value.status == Processed
    decreases |pending|
  {
    if pending != [] && !Blocked(rows, pending[0], replies) && pending[0].id !in replies.markRejected {
      var q := pending[0];
      var done := Handled(rows, q, replies, clock);
      var p := RunPass(rows, pending, replies, clock);
      HandledUnprocessed(rows, pending, replies, clock);
      PassRespectsDependencies(done, pending[1..], replies, clock + 2);
      forall j | 0 <= j < |pending| && pending[j].id in p.executed && WaitsOnRow(rows, pending[j], replies)
        ensures Find(p.rows, pending[j].waitForId).Some?
        ensures Find(p.rows, pending[j].waitForId).value.status == Processed
      {
        if j == 0 {
          HeadDependencyProcessed(rows, pending, replies, clock);
        } else {
          FindStable(rows, done, pending[j].waitForId);
          assert pending[j] == pending[1..][j - 1];
        }
      }
    }
  }

  /** What dequeue returns holds no processed row, and a table row with the id of a
      dequeued row is that row, since ids are distinct. */
  lemma PendingUnprocessed(rows: seq<Row>, node: string)
    requires Ascending(rows)
    ensures Unprocessed(rows, Pending(rows, node))
  {
    var pending := Pending(rows, node);
    PendingMembers(rows, node);
    forall i, j | 0 <= i < |rows| && 0 <= j < |pending| && rows[i].id == pending[j].id
      ensures rows[i].status != Processed
    {
      assert pending[j] in pending;
      var k :| 0 <= k < |rows| && rows[k] == pending[j];
      assert k == i;
    }
  }

  /** A process pass for a node, as Queue.Process runs it: every row it runs whose
      wait_for_id names a row of the table, and whose lookup did not fail, runs only once
      that row is 'processed' (before the pass, or by an earlier row of the same pass), and
      that row is still 'processed' when the pass ends. */
  lemma ProcessRespectsDependencies(rows: seq<Row>, node: string, replies: Replies, clock: int)
    requires Ascending(rows)
    ensures var pending := if replies.selectFailed then [] else Pending(rows, node);
      var p := RunPass(rows, pending, replies, clock);
      forall j :: 0 <= j < |pending| && pending[j].id in p.executed && WaitsOnRow(rows, pending[j], replies) ==>
        Find(p.rows, pending[j].waitForId).Some?
        && Find(p.rows, pending[j].waitForId).value.status == Processed
    ensures var pending := if replies.selectFailed then [] else Pending(rows, node);
      var p := RunPass(rows, pending, replies, clock);
      forall j, m :: 0 <= j < |pending| && 0 <= m < |pending| && pending[j].id in p.executed
                     && WaitsOnRow(rows, pending[j], replies) && pending[m].id == pending[j].waitForId ==>
        m < j && Settled(pending[m], replies) == Processed
    ensures var pending := if replies.selectFailed then [] else Pending(rows, node);
      var p := RunPass(rows, pending, replies, clock);
      forall j :: 0 <= j < |pending| && pending[j].id in p.executed && WaitsOnRow(rows, pending[j], replies)
                  && pending[j].waitForId !in Ids(pending) ==>
        Find(rows, pending[j].waitForId).value.status == Processed
  {
    if !replies.selectFailed {
      PendingAscending(rows, node);
      PendingUnprocessed(rows, node);
      PassRespectsDependencies(rows, Pending(rows, node), replies, clock);
      PassRunsAfterEarlierDependency(rows, Pending(rows, node), replies, clock);
      PassRunsAfterProcessedDependency(rows, Pending(rows, node), replies, clock);
    }
  }

  /** With the rows dequeued for a node, a pass never lifts tries above MAX_TRIES and
      never touches a row that already reached it. */
  lemma PassKeepsTriesBound(rows: seq<Row>, node: string, replies: Replies, clock: int)
    requires Ascending(rows) && TriesBounded(rows)
    ensures var p := RunPass(rows, Pending(rows, node), replies, clock);
      && TriesBounded(p.rows)
      && forall i :: 0 <= i < |rows| && rows[i].tries >= MaxTries ==> p.rows[i] == rows[i]
  {
    var pending := Pending(rows, node);
    var p := RunPass(rows, pending, replies, clock);
    PendingMembers(rows, node);
    PendingAscending(rows, node);
    var k := PassRunsPrefix(rows, pending, replies, clock);
    PassRecordsVerdict(rows, pending, replies, clock);
    forall i | 0 <= i < |rows| && rows[i].id in p.executed
      ensures rows[i].tries < MaxTries && p.rows[i].tries == rows[i].tries + 1
    {
      var j :| 0 <= j < k && pending[j].id == rows[i].id;
      assert pending[j] in rows;
      var i' :| 0 <= i' < |rows| && rows[i'] == pending[j];
      assert i' == i;
    }
  }

  /** Entry A, then entry B waiting for A, both for one node. When every reply succeeds,
      a single pass runs A and then B: B's check re-reads A's row, which A's handling has
      just made 'processed'. */
  lemma DependentRunsInSamePass(a: int, b: int, node: string, qa: string, qb: string,
                                replies: Replies, clock: int, now: int)
    requires a < b && a != 0
    requires replies.markRejected == {} && replies.execFailed == {} && replies.finalRejected == {}
    ensures var rows := [NewRow(a, node, qa, 0, now), NewRow(b, node, qb, a, now + 1)];
      var p := RunPass(rows, Pending(rows, node), replies, clock);
      p.executed == [a, b] && p.rows[0].status == Processed && p.rows[1].status == Processed
  {
    var rows := [NewRow(a, node, qa, 0, now), NewRow(b, node, qb, a, now + 1)];
    PendingOfTwo(rows, node);
    assert !Blocked(rows, rows[0], replies);
    var done := Handled(rows, rows[0], replies, clock);
    HandledSettles(rows, rows[0], replies, clock, 0);
    assert done[0].id == a && done[1] == rows[1];
    assert Find(done, a) == Some(done[0]);
    assert !Blocked(done, rows[1], replies);
    var done2 := Handled(done, rows[1], replies, clock + 2);
    HandledSettles(done, rows[1], replies, clock + 2, 1);
    assert done2[0] == done[0];
    HandledStep(rows, rows, replies, clock);
    assert rows[1..] == [rows[1]] && rows[1..][1..] == [];
    HandledStep(done, rows[1..], replies, clock + 2);
    assert RunPass(done2, [], replies, clock + 4).executed == [];
  }

  /** One row that is neither blocked nor rejected is handled and the pass goes on. */
  lemma HandledStep(rows: seq<Row>, pending: seq<Row>, replies: Replies, clock: int)
    requires pending != [] && !Blocked(rows, pending[0], replies) && pending[0].id !in replies.markRejected
    ensures var p := RunPass(Handled(rows, pending[0], replies, clock), pending[1..], replies, clock + 2);
      RunPass(rows, pending, replies, clock) == Effect(p.rows, p.clock, [pending[0].id] + p.executed)
  {
  }

  /** The same two entries when A's command fails: A is left in 'error' with one try, and
      B, whose dependency exists but is not processed, ends the pass untouched. */
  lemma FailedDependencyBlocks(a: int, b: int, node: string, qa: string, qb: string,
                               replies: Replies, clock: int, now: int)
    requires a < b && a != 0
    requires replies.markRejected == {} && replies.finalRejected == {} && a in replies.execFailed
    requires b !in replies.lookupFailed
    ensures var rows := [NewRow(a, node, qa, 0, now), NewRow(b, node, qb, a, now + 1)];
      var p := RunPass(rows, Pending(rows, node), replies, clock);
      p.executed == [a] && p.rows[0].status == Error && p.rows[0].tries == 1 && p.rows[1] == rows[1]
  {
    var rows := [NewRow(a, node, qa, 0, now), NewRow(b, node, qb, a, now + 1)];
    PendingOfTwo(rows, node);
    var done := Handled(rows, rows[0], replies, clock);
    assert Find(done, a) == Some(done[0]);
    assert rows[1..] == [rows[1]];
    assert Blocked(done, rows[1], replies);
  }

  /** The same two entries when A's command fails and B's lookup of A returns no data:
      B is not held back, so it runs in the same pass while A is left in 'error'. */
  lemma LookupFailureRunsDependent(a: int, b: int, node: string, qa: string, qb: string,
                                   replies: Replies, clock: int, now: int)
    requires a < b && a != 0
    requires replies.markRejected == {} && replies.finalRejected == {} && a in replies.execFailed
    requires b in replies.lookupFailed
    ensures var rows := [NewRow(a, node, qa, 0, now), NewRow(b, node, qb, a, now + 1)];
      var p := RunPass(rows, Pending(rows, node), replies, clock);
      p.executed == [a, b] && p.rows[0].status == Error
  {
    var rows := [NewRow(a, node, qa, 0, now), NewRow(b, node, qb, a, now + 1)];
    PendingOfTwo(rows, node);
    var done := Handled(rows, rows[0], replies, clock);
    assert done[0].id == a && done[0].status == Error;
    assert !Blocked(done, rows[1], replies);
    var done2 := Handled(done, rows[1], replies, clock + 2);
    assert done2[0] == done[0];
    HandledStep(rows, rows, replies, clock);
    assert rows[1..] == [rows[1]] && rows[1..][1..] == [];
    HandledStep(done, rows[1..], replies, clock + 2);
  }

  lemma PendingOfTwo(rows: seq<Row>, node: string)
    requires |rows| == 2 && Eligible(rows[0], node) && Eligible(rows[1], node)
    ensures Pending(rows, node) == rows
  {
    assert rows[..1][..0] == [];
    assert Pending(rows[..1], node) == [rows[0]];
  }
}
