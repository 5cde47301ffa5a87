/** Cluster.php: membership of a replication cluster, the requests that change it, and the
    batching of table attachments. */
module ShardingCluster {
  import opened Wrappers
  import opened Text
  import QueueRows
  import TableNames
  import ShardingQueue
  import NodeOrder

  /** The Galera options sent with CREATE CLUSTER and JOIN CLUSTER. */
  const GaleraOptions: string :=
    "gmcast.peer_timeout=PT3S;evs.install_timeout=PT5S;evs.delayed_keep_period=PT10S;pc.wait_prim_timeout=PT5S"

  /** The marker the engine appends to replication-only entries of a node list. */
  const ReplicationMarker: string := ":replication"

  datatype TableOperation = Attach | Detach

  /** The comma-separated entries of a node list, each trimmed. */
  function Entries(v: string): (r: set<string>)
    ensures forall e :: e in r ==> ',' !in e && Trimmed(e)
  {
    var parts := Split(v, ',');
    forall p | p in parts ensures ',' !in Trim(p) {
      if ',' in Trim(p) {
        TrimKeepsChars(p, ',');
      }
    }
    set p | p in parts :: Trim(p)
  }

  /** Listing trimmed, comma-free node ids with ',' between them and reading the list back
      gives exactly those ids. */
  lemma EntriesOfJoin(ids: seq<string>)
    requires |ids| >= 1
    requires forall k :: 0 <= k < |ids| ==> ',' !in ids[k] && Trimmed(ids[k])
    ensures Entries(Join(ids, ",")) == set x | x in ids
  {
    SplitJoin(ids, ',');
    forall x | x in ids ensures Trim(x) == x {
      TrimmedFixed(x);
    }
  }

  /** The engine's status value for `key`, or `fallback` when it reports none. */
  function StatusValue(status: map<string, string>, key: string, fallback: string): string {
    if key in status then status[key] else fallback
  }

  class Cluster {
    /** The cluster name; "" (or "0") means running without a cluster. */
    const name: string
    /** The node this object runs on, used in the requests it enqueues. */
    const nodeId: string
    /** What Node::findId reports for the local node. */
    const localId: string
    /** The engine's status variables, as SHOW STATUS reports them. */
    const status: map<string, string>

    /** Nodes added at runtime. */
    var nodes: set<string>
    /** Tables waiting to be attached, in insertion order and without repeats. */
    var tablesToAttach: seq<string>
    /** Tables waiting to be detached, in insertion order and without repeats. */
    var tablesToDetach: seq<string>
    /** The requests sent straight to the engine rather than through a queue. */
    var sent: seq<string>

    predicate Valid()
      reads this
    {
      Distinct(tablesToAttach) && Distinct(tablesToDetach)
    }

    constructor(name: string, nodeId: string, localId: string, status: map<string, string>)
      ensures Valid()
      ensures this.name == name && this.nodeId == nodeId && this.localId == localId && this.status == status
      ensures nodes == {} && tablesToAttach == [] && tablesToDetach == [] && sent == []
    {
      this.name := name;
      this.nodeId := nodeId;
      this.localId := localId;
      this.status := status;
      nodes := {};
      tablesToAttach := [];
      tablesToDetach := [];
      sent := [];
    }

    function CreateQuery(): string {
      "CREATE CLUSTER IF NOT EXISTS " + name + " '" + name + "' as path, '" + GaleraOptions + "' as options"
    }

    function JoinQuery(): string {
      "JOIN CLUSTER " + name + " at '" + nodeId + "' '" + name + "' as path, '" + GaleraOptions + "' as options"
    }

    function MakePrimaryQuery(): string {
      "SET CLUSTER " + name + " GLOBAL 'pc.bootstrap' = 1"
    }

    function RemoveQuery(): string {
      "DELETE CLUSTER " + name
    }

    /** ALTER CLUSTER <name> ADD|DROP <t1,t2,...>. */
    function AlterQuery(verb: string, tables: seq<string>): string {
      "ALTER CLUSTER " + name + " " + verb + " " + Join(tables, ",")
    }

    /** With a queue the request is enqueued for this node and its id returned; without
        one it is sent directly and 0 is returned. */
    method RunQuery(queue: ShardingQueue.Queue?, query: string) returns (id: int)
      requires queue != null ==> queue.Valid()
      modifies this`sent, queue
      ensures queue == null ==> id == 0 && sent == old(sent) + [query]
      ensures queue != null ==> queue.Valid() && sent == old(sent)
      ensures queue != null ==> (id == old(queue.lastId) + 1 && id > 0 &&
        queue.rows == old(queue.rows) + [QueueRows.NewRow(id, nodeId, query, queue.waitForId, old(queue.clock))])
      ensures queue != null ==> unchanged(queue`waitForId, queue`executed, queue`tableExists)
    {
      if queue != null {
        id := queue.Add(nodeId, query);
      } else {
        sent := sent + [query];
        id := 0;
      }
    }

    method Create(queue: ShardingQueue.Queue?) returns (id: int)
      requires queue != null ==> queue.Valid()
      modifies this`sent, queue
      ensures queue == null ==> id == 0 && sent == old(sent) + [CreateQuery()]
      ensures queue != null ==> (queue.Valid() && sent == old(sent) && id == old(queue.lastId) + 1 &&
        queue.rows == old(queue.rows) + [QueueRows.NewRow(id, nodeId, CreateQuery(), queue.waitForId, old(queue.clock))])
    {
      id := RunQuery(queue, CreateQuery());
    }

    method MakePrimary(queue: ShardingQueue.Queue?) returns (id: int)
      requires queue != null ==> queue.Valid()
      modifies this`sent, queue
      ensures queue == null ==> id == 0 && sent == old(sent) + [MakePrimaryQuery()]
      ensures queue != null ==> (queue.Valid() && sent == old(sent) && id == old(queue.lastId) + 1 &&
        queue.rows == old(queue.rows) + [QueueRows.NewRow(id, nodeId, MakePrimaryQuery(), queue.waitForId, old(queue.clock))])
    {
      id := RunQuery(queue, MakePrimaryQuery());
    }

    method Remove(queue: ShardingQueue.Queue?) returns (id: int)
      requires queue != null ==> queue.Valid()
      modifies this`sent, queue
      ensures queue == null ==> id == 0 && sent == old(sent) + [RemoveQuery()]
      ensures queue != null ==> (queue.Valid() && sent == old(sent) && id == old(queue.lastId) + 1 &&
        queue.rows == old(queue.rows) + [QueueRows.NewRow(id, nodeId, RemoveQuery(), queue.waitForId, old(queue.clock))])
    {
      id := RunQuery(queue, RemoveQuery());
    }

    /** Always sent directly. */
    method Refresh()
      modifies this`sent
      ensures sent == old(sent) + ["ALTER CLUSTER " + name + " UPDATE nodes"]
    {
      var _ := RunQuery(null, "ALTER CLUSTER " + name + " UPDATE nodes");
    }

    /** Every node of the cluster: the local node alone without a cluster; otherwise the
        entries of the engine's nodes_set together with the nodes added at runtime. */
    function GetNodes(): (r: set<string>)
      reads this
      ensures !Truthy(name) ==> r == {localId}
      ensures Truthy(name) ==> nodes <= r
      ensures Truthy(name) ==> forall x :: x in r <==>
        x in nodes || x in ListedNodes("cluster_" + name + "_nodes_set")
    {
      if !Truthy(name) then {localId}
      else ListedNodes("cluster_" + name + "_nodes_set") + nodes
    }

    /** The entries of a node-list status variable; none when it is missing, "" or "0". */
    function ListedNodes(key: string): (r: set<string>)
      ensures var v := StatusValue(status, key, "");
        (Truthy(v) ==> r == Entries(v)) && (!Truthy(v) ==> r == {})
    {
      var v := StatusValue(status, key, "");
      if Truthy(v) then Entries(v) else {}
    }

    /** The nodes in the engine's current view: the local node alone without a cluster;
        otherwise the nodes_view entries without replication-only ones. Runtime-added
        nodes are not consulted. */
    function GetActiveNodes(): (r: set<string>)
      ensures !Truthy(name) ==> r == {localId}
      ensures Truthy(name) ==> forall x :: x in r <==>
        x in ListedNodes("cluster_" + name + "_nodes_view") && !Contains(x, ReplicationMarker)
    {
      if !Truthy(name) then {localId}
      else
        set x | x in ListedNodes("cluster_" + name + "_nodes_view") && !Contains(x, ReplicationMarker)
    }

    /** Nodes known to the cluster but outside the view, and nodes in the view but not
        known: the symmetric difference of GetNodes and GetActiveNodes. */
    function GetInactiveNodes(): (r: set<string>)
      reads this
      ensures forall x :: x in r <==> (x in GetNodes() <==> x !in GetActiveNodes())
      ensures r == {} <==> GetNodes() == GetActiveNodes()
    {
      var all, active := GetNodes(), GetActiveNodes();
      var r := (all - active) + (active - all);
      assert r == {} ==> all == active by {
        if r == {} {
          forall x | x in all ensures x in active {
            assert x !in all - active;
          }
          forall x | x in active ensures x in all {
            assert x !in active - all;
          }
        }
      }
      r
    }

    /** The cluster counts as active unless the engine reports a status other than
        'primary'; a missing status counts as primary. */
    function IsActive(): (r: bool)
      ensures var key := "cluster_" + name + "_status";
        r <==> (key !in status || status[key] == "primary")
    {
      StatusValue(status, "cluster_" + name + "_status", "primary") == "primary"
    }

    /** Records each node as a member and enqueues one JOIN request addressed to it, in
        argument order. */
    method AddNodeIds(queue: ShardingQueue.Queue, nodeIds: seq<string>)
      requires queue.Valid()
      modifies this`nodes, queue`rows, queue`lastId, queue`clock, queue`lastTarget
      ensures queue.Valid()
      ensures nodes == old(nodes) + Members(nodeIds)
      ensures queue.rows == QueueRows.Enqueued(old(queue.rows), JoinJobs(nodeIds), queue.waitForId, old(queue.lastId), old(queue.clock))
      ensures queue.lastId == old(queue.lastId) + |nodeIds| && queue.clock == old(queue.clock) + |nodeIds|
    {
      ghost var jobs := JoinJobs(nodeIds);
      ghost var rows0, last0, clock0 := queue.rows, queue.lastId, queue.clock;
      var i := 0;
      while i < |nodeIds|
        invariant 0 <= i <= |nodeIds| && queue.Valid()
        invariant nodes == old(nodes) + Members(nodeIds[..i])
        invariant queue.lastId == last0 + i && queue.clock == clock0 + i
        invariant queue.rows == QueueRows.Enqueued(rows0, jobs[..i], queue.waitForId, last0, clock0)
      {
        var node := nodeIds[i];
        nodes := nodes + {node};
        ghost var before, wait := queue.rows, queue.waitForId;
        QueueRows.EnqueuedStep(rows0, jobs, i, wait, last0, clock0);
        assert jobs[i].0 == node && jobs[i].1 == JoinQuery();
        ghost var next := QueueRows.NewRow(last0 + 1 + i, node, JoinQuery(), wait, clock0 + i);
        assert QueueRows.Enqueued(rows0, jobs[..i + 1], wait, last0, clock0) == before + [next];
        var id := queue.Add(node, JoinQuery());
        assert id == last0 + 1 + i && queue.waitForId == wait;
        assert queue.rows == before + [next];
        assert nodeIds[..i + 1][..i] == nodeIds[..i];
        i := i + 1;
      }
      assert jobs[..i] == jobs && nodeIds[..i] == nodeIds;
    }

    /** One JOIN request per node, addressed to that node. */
    function JoinJobs(nodeIds: seq<string>): (r: seq<(string, string)>)
      ensures |r| == |nodeIds| && forall k :: 0 <= k < |r| ==> r[k] == (nodeIds[k], JoinQuery())
    {
      seq(|nodeIds|, k requires 0 <= k < |nodeIds| => (nodeIds[k], JoinQuery()))
    }

    /** Enqueues ALTER CLUSTER ... ADD for the listed tables; an empty list fails before
        anything is enqueued. */
    method AddTables(queue: ShardingQueue.Queue, tables: seq<string>) returns (r: Result<int>)
      requires queue.Valid()
      modifies queue`rows, queue`lastId, queue`clock, queue`lastTarget
      ensures queue.Valid()
      ensures tables == [] ==> r == Fail(EmptyTableList) && unchanged(queue)
      ensures tables != [] ==> (r == Ok(old(queue.lastId) + 1) &&
        queue.lastId == old(queue.lastId) + 1 && queue.clock == old(queue.clock) + 1 &&
        queue.rows == old(queue.rows) + [QueueRows.NewRow(r.value, nodeId, AlterQuery("ADD", tables), queue.waitForId, old(queue.clock))] &&
        queue.lastTarget == queue.WriteTable())
    {
      if tables == [] {
        return Fail(EmptyTableList);
      }
      var id := queue.Add(nodeId, AlterQuery("ADD", tables));
      r := Ok(id);
    }

    /** Enqueues ALTER CLUSTER ... DROP for the listed tables; an empty list fails before
        anything is enqueued. */
    method RemoveTables(queue: ShardingQueue.Queue, tables: seq<string>) returns (r: Result<int>)
      requires queue.Valid()
      modifies queue`rows, queue`lastId, queue`clock, queue`lastTarget
      ensures queue.Valid()
      ensures tables == [] ==> r == Fail(EmptyTableList) && unchanged(queue)
      ensures tables != [] ==> (r == Ok(old(queue.lastId) + 1) &&
        queue.lastId == old(queue.lastId) + 1 && queue.clock == old(queue.clock) + 1 &&
        queue.rows == old(queue.rows) + [QueueRows.NewRow(r.value, nodeId, AlterQuery("DROP", tables), queue.waitForId, old(queue.clock))] &&
        queue.lastTarget == queue.WriteTable())
    {
      if tables == [] {
        return Fail(EmptyTableList);
      }
      var id := queue.Add(nodeId, AlterQuery("DROP", tables));
      r := Ok(id);
    }

    /** Sends ALTER CLUSTER ... ADD directly; an empty list fails, and without a cluster
        nothing is sent. */
    method AttachTables(tables: seq<string>) returns (r: Outcome)
      modifies this`sent
      ensures tables == [] ==> r == Throw(EmptyTableList) && sent == old(sent)
      ensures tables != [] ==> (r == Pass &&
        sent == old(sent) + (if Truthy(name) then [AlterQuery("ADD", tables)] else []))
    {
      if tables == [] {
        return Throw(EmptyTableList);
      }
      if Truthy(name) {
        sent := sent + [AlterQuery("ADD", tables)];
      }
      r := Pass;
    }

    /** Sends ALTER CLUSTER ... DROP directly; an empty list fails, and without a cluster
        nothing is sent. */
    method DetachTables(tables: seq<string>) returns (r: Outcome)
      modifies this`sent
      ensures tables == [] ==> r == Throw(EmptyTableList) && sent == old(sent)
      ensures tables != [] ==> (r == Pass &&
        sent == old(sent) + (if Truthy(name) then [AlterQuery("DROP", tables)] else []))
    {
      if tables == [] {
        return Throw(EmptyTableList);
      }
      if Truthy(name) {
        sent := sent + [AlterQuery("DROP", tables)];
      }
      r := Pass;
    }

    /** Remembers `table` for the next batch of the given operation. */
    method AddPendingTable(table: string, operation: TableOperation)
      requires Valid()
      modifies this`tablesToAttach, this`tablesToDetach
      ensures Valid() && HasPendingTable(table, operation)
      ensures operation == Attach ==>
        tablesToAttach == Inserted(old(tablesToAttach), table) && tablesToDetach == old(tablesToDetach)
      ensures operation == Detach ==>
        tablesToDetach == Inserted(old(tablesToDetach), table) && tablesToAttach == old(tablesToAttach)
    {
      if operation == Attach {
        tablesToAttach := Inserted(tablesToAttach, table);
      } else {
        tablesToDetach := Inserted(tablesToDetach, table);
      }
    }

    function HasPendingTable(table: string, operation: TableOperation): (r: bool)
      reads this
      ensures r <==> table in (if operation == Attach then tablesToAttach else tablesToDetach)
    {
      if operation == Attach then table in tablesToAttach else table in tablesToDetach
    }

    /** Enqueues the pending DROP batch, then the pending ADD batch, each only when it is
        non-empty, and empties both; a second call therefore enqueues nothing. */
    method ProcessPendingTables(queue: ShardingQueue.Queue)
      requires Valid() && queue.Valid()
      modifies this`tablesToAttach, this`tablesToDetach, queue`rows, queue`lastId, queue`clock, queue`lastTarget
      ensures Valid() && queue.Valid()
      ensures tablesToAttach == [] && tablesToDetach == []
      ensures var batches := (if old(tablesToDetach) != [] then [(nodeId, AlterQuery("DROP", old(tablesToDetach)))] else [])
                           + (if old(tablesToAttach) != [] then [(nodeId, AlterQuery("ADD", old(tablesToAttach)))] else []);
        && queue.rows == QueueRows.Enqueued(old(queue.rows), batches, queue.waitForId, old(queue.lastId), old(queue.clock))
        && queue.lastId == old(queue.lastId) + |batches|
        && queue.clock == old(queue.clock) + |batches|
        && queue.lastTarget == (if batches == [] then old(queue.lastTarget) else queue.WriteTable())
    {
      ghost var detach, attach, w := tablesToDetach, tablesToAttach, queue.waitForId;
      ghost var rows0, last0, clock0 := queue.rows, queue.lastId, queue.clock;
      ghost var done: seq<(string, string)> := [];
      if tablesToDetach != [] {
        var _ := RemoveTables(queue, tablesToDetach);
        QueueRows.EnqueuedSnoc(rows0, done, (nodeId, AlterQuery("DROP", detach)), w, last0, clock0);
        done := done + [(nodeId, AlterQuery("DROP", detach))];
        tablesToDetach := [];
      }
      assert queue.rows == QueueRows.Enqueued(rows0, done, w, last0, clock0);
      assert queue.lastId == last0 + |done| && queue.clock == clock0 + |done|;
      if tablesToAttach != [] {
        var _ := AddTables(queue, tablesToAttach);
        QueueRows.EnqueuedSnoc(rows0, done, (nodeId, AlterQuery("ADD", attach)), w, last0, clock0);
        done := done + [(nodeId, AlterQuery("ADD", attach))];
        tablesToAttach := [];
      }
      assert queue.rows == QueueRows.Enqueued(rows0, done, w, last0, clock0);
      assert queue.lastId == last0 + |done| && queue.clock == clock0 + |done|;
    }

    /** The table name prefixed with "<name>:" when the cluster name is truthy. */
    function GetTableName(table: string): (r: string)
      ensures Truthy(name) ==> r == name + ":" + table
      ensures !Truthy(name) ==> r == table
    {
      TableNames.Prefixed(name, table)
    }

    /** System tables currently use the same naming as any other table. */
    function GetSystemTableName(table: string): (r: string)
      ensures r == GetTableName(table)
    {
      GetTableName(table)
    }
  }

  /** The members of a list, as a set. */
  function Members(s: seq<string>): set<string> {
    if s == [] then {} else Members(s[..|s| - 1]) + {s[|s| - 1]}
  }

  /** The members are exactly the listed values. */
  lemma {:induction false} MembersListed(s: seq<string>)
    ensures forall x :: x in Members(s) <==> x in s
  {
    if s != [] {
      MembersListed(s[..|s| - 1]);
      assert s == s[..|s| - 1] + [s[|s| - 1]];
    }
  }

  predicate Distinct(s: seq<string>) {
    forall i, j :: 0 <= i < j < |s| ==> s[i] != s[j]
  }

  /** Ds\Set::add on an insertion-ordered set: a new member goes to the end. */
  function Inserted(s: seq<string>, x: string): (r: seq<string>)
    ensures x in r && forall y :: y in r <==> y in s || y == x
    ensures Distinct(s) ==> Distinct(r)
  {
    if x in s then s else s + [x]
  }

  /** getNodesHash(): md5 of the fingerprint, the one text that splits at '|' into the
      sorted node ids; `md5` itself is a parameter. */
  function NodesHash(nodes: set<string>, md5: string -> string): (r: string)
    ensures nodes == {} ==> r == md5("")
    ensures forall t :: Text.Split(t, '|') == NodeOrder.Sorted(nodes) ==> r == md5(t)
  {
    md5(NodeOrder.Fingerprint(nodes))
  }

  /** Without a cluster the local node is the only node and it is active. */
  lemma NoClusterNoInactive(c: Cluster)
    requires !Truthy(c.name)
    ensures c.GetInactiveNodes() == {}
  {
  }

  /** A known node marked replication-only is never in the view, so it is inactive. */
  lemma ReplicationEntriesInactive(c: Cluster, x: string)
    requires Truthy(c.name) && x in c.GetNodes() && Contains(x, ReplicationMarker)
    ensures x in c.GetInactiveNodes()
  {
  }

  /** A node added at runtime that the view does not list is inactive. */
  lemma RuntimeNodeOutsideViewInactive(c: Cluster, x: string)
    requires Truthy(c.name) && x in c.nodes
    requires x !in c.ListedNodes("cluster_" + c.name + "_nodes_view")
    ensures x in c.GetInactiveNodes()
  {
  }
}
