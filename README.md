# Sharding core of Manticore Buddy, in Dafny

Manticore Buddy is the sidecar daemon of Manticore Search. Its sharding layer
coordinates a replication cluster through three components:

- **Queue** (`sharding_queue`) is a per-node command log. `add` appends a row
  for a node, and `dequeue` selects that node's rows that are not processed
  and have fewer than ten tries, in id order. `process` runs them one by one.
  It stops at the first row that waits for an unprocessed row, or whose mark
  as "processing" the backend rejects.
- **Cluster** keeps the cluster's membership as the engine reports it
  (`nodes_set`, `nodes_view`, `status`) and tracks the nodes added at runtime.
  It builds the CREATE / JOIN / ALTER / DELETE CLUSTER requests, enqueued or
  sent directly, and batches table attachments and detachments.
- **State** (`system.sharding_state`) is a key/value store of JSON-encoded
  values. It has defaults for `cluster`, `cluster_hash` and `master`.

The command-line option processing of the daemon (`CliArgsProcessor::run`) is
modelled as a pure function from the parsed options to either an exit (code,
message, environment written) or a start (merged options, environment
written).

Each component owns its backing table as a field: the queue table as a
`seq<Row>` in insertion order, and the state table as a `seq<StateRow>`. The
cluster holds the engine's status variables as a `map` and keeps a log of the
requests it sends directly. Backend answers are parameters: whether the
dequeue SELECT, a lookup by id or a state read returned no data, whether an
update was rejected, whether a command failed, and how long it took. A lookup
by id that returns no data reads as a missing row, and a state read that
returns no data reads as null, as in the code. The millisecond clock and the hrtime id source are counters in the
queue. JSON encoding and decoding, and the engine's rendering of `value[0]`,
are functions held by the state object.

Modules:

| module | file | what it holds |
|---|---|---|
| `Wrappers` | wrappers.dfy | `Option`, `Result`, `Outcome` and the error cases |
| `Text` | text.dfy | trim, explode, implode, str_contains/starts_with/ends_with, PHP truthiness |
| `NodeOrder` | node_order.dfy | code-point string order (PHP's order for non-numeric ids such as host:port), `Set::sorted()`, the text `getNodesHash` hashes |
| `SqlText` | sql_text.dfy | `addcslashes` and the engine's reading of a quoted literal |
| `TableNames` | table_names.dfy | the `<cluster>:<table>` naming rule |
| `QueueRows` | queue_rows.dfy | queue rows and a pure specification of dequeue and of a process pass |
| `ShardingQueue` | queue.dfy | class `Queue` |
| `ShardingCluster` | cluster.dfy | class `Cluster` |
| `ShardingState` | state.dfy | class `State` and the state-table specification |
| `CliArgs` | cli_args.dfy | `Run` and its lemmas |

A row B that waits for A, dequeued in the same batch after A, runs in the same
pass as A: `shouldSkipQuery` re-reads A's row with `getById`, and A's handling
has already marked it "processed" (`QueueRows.DependentRunsInSamePass`).

## Model

| member | source | states |
|---|---|---|
| `QueueRows.Enqueued` | src/Plugin/Sharding/Queue.php:54-68 | the table after a run of `add` calls grows by one row per job |
| `QueueRows.EnqueuedShape` | src/Plugin/Sharding/Queue.php:54-68 | a run of `add` calls keeps the old rows as a prefix; the k-th job's row has id lastId+1+k, tries 0, status created and creation time clock+k |
| `QueueRows.PendingMembers` | src/Plugin/Sharding/Queue.php:177-202 | a row is dequeued for a node iff it belongs to that node, is not processed and has tries below MAX_TRIES |
| `QueueRows.ErrorRetriedBelowMaxTries` | src/Plugin/Sharding/Queue.php:11 | a row left in "error" is dequeued again while its tries are below 10, and never once they reach 10 |
| `QueueRows.PendingAscending` | src/Plugin/Sharding/Queue.php:177-202 | the dequeued rows come in ascending id order when the table is in id order |
| `QueueRows.Find` | src/Plugin/Sharding/Queue.php:75-82 | the lookup returns a row of the table with that id, or nothing exactly when no row has it |
| `QueueRows.FindAt` | src/Plugin/Sharding/Queue.php:75-82 | in an id-ordered table every row is found by its id |
| `QueueRows.FindStable` | src/Plugin/Sharding/Queue.php:75-82 | the lookup depends only on the ids and on the rows with the id asked for |
| `QueueRows.SetStatus` | src/Plugin/Sharding/Queue.php:211-227 | the status UPDATE keeps every id and changes no row with another id |
| `QueueRows.RunPass` | src/Plugin/Sharding/Queue.php:89-98 | a pass keeps the table's length and ids |
| `QueueRows.PassRunsPrefix` | src/Plugin/Sharding/Queue.php:89-98 | a pass runs a prefix of the dequeued rows in order, and leaves every row whose command it did not run unchanged |
| `QueueRows.PassRecordsVerdict` | src/Plugin/Sharding/Queue.php:122-139 | every row whose command ran ends with tries = dequeued tries + 1, and is "processed" or "error" by the command's result ("processing" if that write was rejected) |
| `QueueRows.HeadDependencyProcessed` | src/Plugin/Sharding/Queue.php:105-114 | when the first row runs, waiting on an existing row whose lookup did not fail, that row is processed when the first row starts and still processed when the pass ends |
| `QueueRows.PassRespectsDependencies` | src/Plugin/Sharding/Queue.php:105-114 | every row that ran, waiting on an existing row whose lookup did not fail, leaves that row processed at the end of the pass |
| `QueueRows.PassRunsAfterEarlierDependency` | src/Plugin/Sharding/Queue.php:89-114 | a row that ran, waiting on one of the dequeued rows (lookup not failed), ran after that row, and that row's verdict "processed" had been written |
| `QueueRows.PassRunsAfterProcessedDependency` | src/Plugin/Sharding/Queue.php:89-114 | a row that ran, waiting on an existing row that is not among the dequeued rows (lookup not failed), found that row processed before the pass began |
| `QueueRows.PendingUnprocessed` | src/Plugin/Sharding/Queue.php:177-202 | no row dequeued is processed, and the table row with a dequeued id is that row |
| `QueueRows.ProcessRespectsDependencies` | src/Plugin/Sharding/Queue.php:89-114 | in a pass over what dequeue returns, a row waiting on an existing row (lookup not failed) runs only once that row is processed: a dequeued dependency ran earlier in the pass and was written "processed", any other was processed before the pass; either way it is processed when the pass ends |
| `QueueRows.LookupFailureRunsDependent` | src/Plugin/Sharding/Queue.php:75-82 | when B's lookup of A returns no data, B is not held back and runs in the same pass although A is left in "error" |
| `QueueRows.PassKeepsTriesBound` | src/Plugin/Sharding/Queue.php:177-202 | a pass over the dequeued rows never lifts tries above 10 and never touches a row that has 10 tries |
| `QueueRows.DependentRunsInSamePass` | src/Plugin/Sharding/Queue.php:105-114 | with A and then B waiting on A, and every reply a success, one pass runs A then B and both end processed |
| `QueueRows.FailedDependencyBlocks` | src/Plugin/Sharding/Queue.php:122-139 | when A's command fails, A ends in "error" with one try, and B is left untouched |
| `QueueRows.ContinuesStep` | src/Plugin/Sharding/Queue.php:89-98 | handling a row that is not skipped keeps the loop on course to the pass result |
| `QueueRows.ContinuesSkip` | src/Plugin/Sharding/Queue.php:89-98 | a skipped row ends the pass, with one more clock reading when the mark was rejected |
| `ShardingQueue.Queue.constructor` | src/Plugin/Sharding/Queue.php:22-27 | table "sharding_queue", no rows, no dependency |
| `ShardingQueue.Queue.SetWaitForId` | src/Plugin/Sharding/Queue.php:34-37 | the next adds record that dependency |
| `ShardingQueue.Queue.ResetWaitForId` | src/Plugin/Sharding/Queue.php:43-46 | the next adds record no dependency |
| `ShardingQueue.Queue.WriteTable` | src/Plugin/Sharding/Queue.php:55 | inserts, updates and lookups address `<cluster>:sharding_queue` when the cluster name is truthy, `sharding_queue` otherwise |
| `ShardingQueue.Queue.Add` | src/Plugin/Sharding/Queue.php:54-68 | appends exactly one created row with a fresh id above all others, the current dependency and equal timestamps, to the cluster's system table; the query is stored exactly as given |
| `ShardingQueue.Queue.GetById` | src/Plugin/Sharding/Queue.php:75-82 | the row with that id; nothing when the SELECT returns no data, and otherwise nothing exactly when no row has the id |
| `ShardingQueue.Queue.Dequeue` | src/Plugin/Sharding/Queue.php:177-202 | returns the node's eligible rows in ascending id order, or nothing when the SELECT fails |
| `ShardingQueue.Queue.UpdateStatus` | src/Plugin/Sharding/Queue.php:211-227 | writes status, tries, update time and duration to the row in the cluster's system table, unless rejected; the result says whether it was written |
| `ShardingQueue.Queue.AttemptToUpdateStatus` | src/Plugin/Sharding/Queue.php:159-167 | a status write always uses the dequeued tries + 1 |
| `ShardingQueue.Queue.ShouldSkipQuery` | src/Plugin/Sharding/Queue.php:105-114 | skips iff the row waits for an existing unprocessed row that the lookup finds (nothing written) or its mark is rejected; otherwise the row is marked "processing"; the mark, rejected or not, is addressed to the cluster's queue table |
| `ShardingQueue.Queue.HandleQuery` | src/Plugin/Sharding/Queue.php:122-139 | sends the command once and records "processed" or "error" by its result |
| `ShardingQueue.Queue.Process` | src/Plugin/Sharding/Queue.php:89-98 | the table, clock and sent commands after the loop are those of `RunPass` over the dequeued rows; when the clock moved the last write went to the cluster's queue table, and otherwise the record of the last write is unchanged |
| `ShardingQueue.Queue.Setup` | src/Plugin/Sharding/Queue.php:233-250 | a second setup fails with "already initialized"; the first creates an empty table |
| `SqlText.AddSlashesAppend` | src/Plugin/Sharding/State.php:59 | escaping distributes over concatenation |
| `SqlText.EscapedReadBack` | src/Plugin/Sharding/State.php:59 | when the quote is escaped, and the backslash too if the text has one, the engine reads back exactly the text, whatever follows the literal |
| `SqlText.LiteralRoundTrip` | src/Plugin/Sharding/State.php:59 | a literal escaped as `set` escapes it denotes exactly the original text |
| `SqlText.QuoteOnlyLosesBackslash` | src/Plugin/Sharding/Queue.php:57 | with only the quote escaped, a query that is one backslash is not read back |
| `TableNames.Prefixed` | src/Plugin/Sharding/Cluster.php:345-347 | `<cluster>:<table>` when the cluster name is truthy, the bare table otherwise |
| `TableNames.PrefixedInjective` | src/Plugin/Sharding/Cluster.php:345-347 | under one cluster name, distinct tables get distinct names |
| `Text.Trim` | src/Plugin/Sharding/State.php:134 | the result is the infix of the input with only blanks cut off at both ends, and has no blank at either end |
| `Text.TrimIdempotent` | src/Plugin/Sharding/State.php:134 | trimming twice is trimming once |
| `Text.TrimKeepsChars` | src/Plugin/Sharding/Cluster.php:127-130 | every character of the trimmed text is a character of the input |
| `Text.Split` | src/Plugin/Sharding/Cluster.php:127-130 | explode gives at least one piece, none holds the delimiter, and joining them gives the input back |
| `Text.SplitJoin` | src/Plugin/Sharding/Cluster.php:127-130 | splitting a joined list gives the list back when no part holds the delimiter |
| `NodeOrder.BelowTotal` | src/Plugin/Sharding/Cluster.php:211 | any two node ids are comparable |
| `NodeOrder.BelowAntisymmetric` | src/Plugin/Sharding/Cluster.php:211 | ids that sort no later than each other are equal |
| `NodeOrder.BelowTransitive` | src/Plugin/Sharding/Cluster.php:211 | the order is transitive |
| `NodeOrder.LeastExists` | src/Plugin/Sharding/Cluster.php:211 | a non-empty set of ids has a least member |
| `NodeOrder.Sorted` | src/Plugin/Sharding/Cluster.php:211 | `sorted()` lists each member once, nothing else, in strictly ascending order |
| `NodeOrder.Fingerprint` | src/Plugin/Sharding/Cluster.php:210-212 | the hashed text is empty for no nodes, and no other text splits at pipe characters into the sorted listing |
| `NodeOrder.FingerprintListing` | src/Plugin/Sharding/Cluster.php:211 | the text hashed for a non-empty node set splits at pipe characters back into the sorted listing, when no id holds one |
| `NodeOrder.FingerprintInjective` | src/Plugin/Sharding/Cluster.php:210-212 | two node sets whose ids are non-empty and hold no pipe character have the same hashed text only if they are equal |
| `ShardingCluster.NodesHash` | src/Plugin/Sharding/Cluster.php:210-212 | md5 of the one text that splits at pipe characters into the sorted node ids; md5 of the empty text for no nodes |
| `ShardingCluster.Entries` | src/Plugin/Sharding/Cluster.php:127-130 | each entry of a node list is trimmed and comma-free |
| `ShardingCluster.EntriesOfJoin` | src/Plugin/Sharding/Cluster.php:127-130 | a comma-joined list of trimmed, comma-free ids reads back as exactly those ids |
| `ShardingCluster.Cluster.constructor` | src/Plugin/Sharding/Cluster.php:34-42 | no runtime nodes, no pending tables |
| `ShardingCluster.Cluster.RunQuery` | src/Plugin/Sharding/Cluster.php:101-109 | with a queue the request is enqueued for this node and its id returned; without one it is sent directly and 0 returned |
| `ShardingCluster.Cluster.Create` | src/Plugin/Sharding/Cluster.php:65-70 | CREATE CLUSTER with the Galera options, through `RunQuery` |
| `ShardingCluster.Cluster.MakePrimary` | src/Plugin/Sharding/Cluster.php:79-82 | SET CLUSTER ... GLOBAL 'pc.bootstrap' = 1, through `RunQuery` |
| `ShardingCluster.Cluster.Remove` | src/Plugin/Sharding/Cluster.php:90-93 | DELETE CLUSTER, through `RunQuery` |
| `ShardingCluster.Cluster.Refresh` | src/Plugin/Sharding/Cluster.php:218-222 | ALTER CLUSTER ... UPDATE nodes is sent directly |
| `ShardingCluster.Cluster.GetNodes` | src/Plugin/Sharding/Cluster.php:115-134 | without a cluster, only the local node; with one, a node is known iff it is listed in nodes_set or was added at runtime |
| `ShardingCluster.Cluster.ListedNodes` | src/Plugin/Sharding/Cluster.php:120-130 | the entries of a status variable, and none when it is missing, "" or "0" |
| `ShardingCluster.Cluster.GetActiveNodes` | src/Plugin/Sharding/Cluster.php:140-162 | without a cluster, only the local node; with one, exactly the nodes_view entries that are not marked replication-only |
| `ShardingCluster.Cluster.GetInactiveNodes` | src/Plugin/Sharding/Cluster.php:169-171 | a node is inactive iff it is in exactly one of the known and active sets; none are inactive iff the two sets are equal |
| `ShardingCluster.Cluster.IsActive` | src/Plugin/Sharding/Cluster.php:177-184 | active iff the status is "primary" or missing |
| `ShardingCluster.Cluster.AddNodeIds` | src/Plugin/Sharding/Cluster.php:193-203 | every given node becomes a runtime node, and one JOIN request per node is enqueued, addressed to it, in argument order; the id counter and the clock advance by one per node |
| `ShardingCluster.Cluster.JoinJobs` | src/Plugin/Sharding/Cluster.php:196-201 | one JOIN request per node, addressed to that node |
| `ShardingCluster.MembersListed` | src/Plugin/Sharding/Cluster.php:196-197 | the nodes recorded are exactly the listed ones |
| `ShardingCluster.Cluster.AddTables` | src/Plugin/Sharding/Cluster.php:230-237 | an empty list fails and changes nothing; otherwise ALTER CLUSTER ... ADD of the comma-joined tables is enqueued in the cluster's queue table and its id returned |
| `ShardingCluster.Cluster.RemoveTables` | src/Plugin/Sharding/Cluster.php:245-252 | the same for ALTER CLUSTER ... DROP |
| `ShardingCluster.Cluster.AttachTables` | src/Plugin/Sharding/Cluster.php:259-270 | an empty list fails; otherwise ADD is sent directly when there is a cluster, and nothing is sent when there is none |
| `ShardingCluster.Cluster.DetachTables` | src/Plugin/Sharding/Cluster.php:277-288 | the same for DROP |
| `ShardingCluster.Cluster.AddPendingTable` | src/Plugin/Sharding/Cluster.php:296-303 | the table is pending for that operation afterwards, added at the end once, and the other list is unchanged |
| `ShardingCluster.Inserted` | src/Plugin/Sharding/Cluster.php:296-303 | adding to an insertion-ordered set keeps it free of repeats and adds exactly that member |
| `ShardingCluster.Cluster.HasPendingTable` | src/Plugin/Sharding/Cluster.php:311-317 | true iff the table is in that operation's list |
| `ShardingCluster.Cluster.ProcessPendingTables` | src/Plugin/Sharding/Cluster.php:326-338 | enqueues the DROP batch, then the ADD batch, each only when non-empty, and empties both lists; the id counter and the clock advance by the number of batches, and when a batch was enqueued the last write went to the cluster's queue table (with none, the record of the last write is unchanged) |
| `ShardingCluster.Cluster.GetTableName` | src/Plugin/Sharding/Cluster.php:345-347 | `<name>:<table>` when the cluster name is truthy, the table otherwise |
| `ShardingCluster.Cluster.GetSystemTableName` | src/Plugin/Sharding/Cluster.php:354-356 | system tables are named like any other table |
| `ShardingCluster.NoClusterNoInactive` | src/Plugin/Sharding/Cluster.php:169-171 | without a cluster no node is inactive |
| `ShardingCluster.ReplicationEntriesInactive` | src/Plugin/Sharding/Cluster.php:150-158 | a known node marked replication-only is inactive |
| `ShardingCluster.RuntimeNodeOutsideViewInactive` | src/Plugin/Sharding/Cluster.php:131-132 | a node added at runtime that the view does not list is inactive |
| `ShardingState.Default` | src/Plugin/Sharding/State.php:14-18 | exactly cluster, cluster_hash and master default to "", every other key to null |
| `ShardingState.FirstWith` | src/Plugin/Sharding/State.php:125-141 | the row read for a key holds that key, and there is none exactly when no row does |
| `ShardingState.FirstIndex` | src/Plugin/Sharding/State.php:125-141 | no row before the one read holds the key |
| `ShardingState.Upsert` | src/Plugin/Sharding/State.php:61-74 | an insert appends one row; an update rewrites every row of the key and keeps all others |
| `ShardingState.UpsertReadBack` | src/Plugin/Sharding/State.php:61-74 | after a write that took the right branch, the key reads back the row written |
| `ShardingState.NullRowShadowsWrite` | src/Plugin/Sharding/State.php:61-74 | when a key has a row whose value reads as null, or whose read fails, `set` inserts a second row and reads still see the first |
| `ShardingState.UpsertOtherKeys` | src/Plugin/Sharding/State.php:61-74 | a write never changes what another key reads |
| `ShardingState.EncodedText` | src/Plugin/Sharding/State.php:59 | the encoder's output, or "null" where encoding fails |
| `ShardingState.EncodedTextAsWritten` | src/Plugin/Sharding/State.php:59 | as written, an output of "0" also becomes "null" |
| `ShardingState.ZeroStoredAsNull` | src/Plugin/Sharding/State.php:59 | the integer 0 is stored as null as written, and kept by the corrected text |
| `ShardingState.EncodedTextAgrees` | src/Plugin/Sharding/State.php:59 | the two texts agree on every output that PHP counts as true |
| `ShardingState.BracketEscaped` | src/Plugin/Sharding/State.php:59-64 | escaping the bracketed text escapes only the text inside |
| `ShardingState.Normalise` | src/Plugin/Sharding/State.php:131-140 | null stays null; a trimmed text that neither starts with `{` nor ends with `}` is kept; anything else is decoded |
| `ShardingState.NormaliseIdempotent` | src/Plugin/Sharding/State.php:131-140 | normalising a plain-text result again gives the same result |
| `ShardingState.State.constructor` | src/Plugin/Sharding/State.php:25-29 | table "system.sharding_state", no cluster, no rows |
| `ShardingState.State.SetCluster` | src/Plugin/Sharding/State.php:37-40 | the cluster is set |
| `ShardingState.State.WriteTable` | src/Plugin/Sharding/State.php:54-56 | writes go to the cluster's system name once a cluster is set, to the bare name before |
| `ShardingState.State.Fetch` | src/Plugin/Sharding/State.php:125-141 | null when the read returns no data or no row holds the key; otherwise the first row's rendered value, normalised |
| `ShardingState.State.Get` | src/Plugin/Sharding/State.php:91-93 | the fetched value, or the key's default when that is null; never null for a key with a default |
| `ShardingState.State.Set` | src/Plugin/Sharding/State.php:49-84 | null is refused and nothing changes; otherwise the bracketed encoded text is inserted (when fetch reports null, a failed read included) or updated, unless the backend rejects it; the call succeeds either way |
| `ShardingState.State.IsActive` | src/Plugin/Sharding/State.php:167-182 | active iff the table exists and every key with a default fetches a non-null value, so a failed read of one makes it inactive |
| `ShardingState.State.Setup` | src/Plugin/Sharding/State.php:147-161 | a second setup fails; the first creates an empty table, fails without a cluster, and otherwise attaches the table to the cluster |
| `CliArgs.Merge` | src/Lib/CliArgsProcessor.php:19 | a given option overrides its default; listen defaults to 127.0.0.1:9308 |
| `CliArgs.ListenAddress` | src/Lib/CliArgsProcessor.php:177-182 | a listen address starting with http://0.0.0.0 has that prefix replaced by http://127.0.0.1; any other is kept |
| `CliArgs.Run` | src/Lib/CliArgsProcessor.php:81-115 | help exits 0 first, then version; exit code 0 iff help or version; a start returns the merged options |
| `CliArgs.ParseThreads` | src/Lib/CliArgsProcessor.php:121-132 | halts iff threads is given outside 1..256, writing nothing; otherwise writes THREADS exactly when given |
| `CliArgs.ParseDisableTelemetry` | src/Lib/CliArgsProcessor.php:138-144 | appends TELEMETRY, 0 when disable-telemetry is given and 1 otherwise |
| `CliArgs.ParseDebug` | src/Lib/CliArgsProcessor.php:150-155 | appends DEBUG=1 exactly when debug is given |
| `CliArgs.ParseTelemetryPeriod` | src/Lib/CliArgsProcessor.php:161-171 | halts iff the period is given outside 5..1800, writing nothing; otherwise writes TELEMETRY_PERIOD exactly when given |
| `CliArgs.ParseListen` | src/Lib/CliArgsProcessor.php:177-182 | appends LISTEN with the loopback rewrite; an address not starting with http://0.0.0.0 is written as given |
| `CliArgs.ThreadsRange` | src/Lib/CliArgsProcessor.php:121-132 | a threads value outside 1..256 exits with code 1 before anything is written, and only then |
| `CliArgs.PeriodRange` | src/Lib/CliArgsProcessor.php:161-171 | with valid threads, a telemetry period outside 5..1800 exits with code 1, and only then, after THREADS, TELEMETRY and DEBUG are written |
| `CliArgs.StartEnvironment` | src/Lib/CliArgsProcessor.php:108-112 | a start writes THREADS when given, TELEMETRY 0 or 1, DEBUG when given, TELEMETRY_PERIOD when given and LISTEN with the loopback rewrite, in that order |

## Left out

- `State::listRegex` is not modelled: it matches keys with an engine REGEX, and regular expressions are outside the model.
- `Queue::runMkdir` is not modelled: it creates directories and asks the engine for its data directory.
- `Cluster::init` is not modelled: it is marked as not in use; it builds the system cluster for the local node and calls `create`, which `ShardingCluster.Cluster.Create` models.
- `ShardingQueue.Queue.Setup`: the CREATE TABLE is modelled, but the final `attachTable` call is not. Cluster defines no method of that name, so in PHP the first setup fails with an Error right after creating the table, while the model returns Pass.
- `ShardingQueue.Queue.Add`: the source ignores the INSERT's result and returns the id anyway; the model always stores the row. A row that waits for the id of a failed insert finds no row and is not held back.
- `NodeOrder.Sorted`: `Below` compares code points. PHP's default order compares numeric strings as numbers ("9" before "10"), so the listing, and the hashed text, match PHP's only for ids that are not numeric strings, such as host:port.
- Command failure (`execFailed` of `QueueRows.Replies`) means a row whose command result has a non-empty top-level error; an error that appears only inside the first result set is not seen by `handleQuery` and counts as success, while `updateStatus` looks at both places.
- JSON encoding and decoding, and the engine's rendering of `value[0]`, are functions in the `Json` parameter; their internals are not modelled.
- `md5` is a parameter of `ShardingCluster.NodesHash` and nothing is assumed about its collisions, so the model proves that the hashed text determines the node set (`NodeOrder.FingerprintInjective`) but not that the hash does.
- `Node::findId` is the constant `localId` of a cluster.
- Logging, the debug output and concurrency between nodes are not modelled.
- The backend's answers are parameters, as are the command results and durations. The engine's evaluation of the requests themselves is not modelled, nor are failures of the table-existence check or of the requests the cluster sends directly.
- The hrtime id source and the microtime clock are counters. Ids are assumed to increase, as hrtime does.
- The key in State's SQL is put in unescaped. The model uses keys as given.
- `fetch()` has no ORDER BY. The model assumes the engine reports the first inserted row.
- Reads that use the bare table name and writes that use the prefixed name address the same table.
- `CliArgs.Run`: echo, exit and putenv become the returned outcome. A non-numeric threads or telemetry-period string is not modelled; the options are integers.
- `CliArgs.Run`: numbers are written in decimal by `Decimal`. The help and version texts are reduced to their names.
- `return $this` of the fluent methods is not modelled.

## Findings

| source | as written | input that shows it | evidently intended | confidence | as-written member | corrected member |
|---|---|---|---|---|---|---|
| src/Plugin/Sharding/Queue.php:57 | `add` escapes only the quote before putting the query into a quoted literal | a query that is a single backslash: the unescaped backslash escapes the closing quote | escape the backslash as well, as `State::set` does, so that the stored query is the query | not executed | `SqlText.QuoteOnlyLosesBackslash` | `SqlText.LiteralRoundTrip` (used by `ShardingQueue.Queue.Add`) |
| src/Plugin/Sharding/State.php:59 | `json_encode($value) ?: 'null'` replaces every output that PHP counts as false | `set(key, 0)`: json_encode gives "0", so `[null]` is stored | fall back to "null" only when encoding fails | not executed | `ShardingState.ZeroStoredAsNull` | `ShardingState.EncodedText` (used by `ShardingState.State.Set`) |
