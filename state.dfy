/** State.php: the sharding key/value store, as a class over its own copy of the state
    table. */
module ShardingState {
  import opened Wrappers
  import opened Text
  import SqlText
  import ShardingCluster

  /** A PHP value as json_encode() takes it and simdjson_decode() gives it back. */
  datatype Value =
    | Null
    | Bool(b: bool)
    | Int(i: int)
    | Str(s: string)
    | List(items: seq<Value>)
    | Object(fields: seq<(string, Value)>)

  /** The JSON functions the store relies on: `encode` is json_encode (None where it
      returns false), `decode` is simdjson_decode, and `first` is how the engine renders
      `value[0]` of a stored JSON text (None where it reports null). */
  datatype Json = Json(encode: Value -> Option<string>, decode: string -> Value, first: string -> Option<string>)

  /** One row of the state table; `value` is the JSON text as stored. */
  datatype StateRow = StateRow(key: string, value: string, updatedAt: int)

  /** The keys with a default, in the order isActive() checks them. */
  const DefaultKeys: seq<string> := ["cluster", "cluster_hash", "master"]

  /** get()'s fallback: '' for the keys with a default, null for any other key. */
  function Default(key: string): (r: Value)
    ensures r != Null <==> key in DefaultKeys
    ensures r != Null ==> r == Str("")
  {
    if key in DefaultKeys then Str("") else Null
  }

  /** The first row holding `key`, the one a SELECT without ORDER BY reports first. */
  function FirstWith(rows: seq<StateRow>, key: string): (r: Option<StateRow>)
    ensures r.None? <==> forall i :: 0 <= i < |rows| ==> rows[i].key != key
    ensures r.Some? ==> r.value in rows && r.value.key == key
  {
    if rows == [] then None
    else if rows[0].key == key then Some(rows[0])
    else FirstWith(rows[1..], key)
  }

  /** The position of the row FirstWith reports: no earlier row has the key. */
  lemma {:induction false} FirstIndex(rows: seq<StateRow>, key: string) returns (i: nat)
    requires FirstWith(rows, key).Some?
    ensures i < |rows| && rows[i] == FirstWith(rows, key).value
    ensures forall j :: 0 <= j < i ==> rows[j].key != key
  {
    if rows[0].key == key {
      i := 0;
    } else {
      var k := FirstIndex(rows[1..], key);
      i := k + 1;
    }
  }

  /** The table after set(): a new row when fetch() reported null (`present` false),
      otherwise every row with the key gets the new value and time. */
  function Upsert(rows: seq<StateRow>, key: string, stored: string, now: int, present: bool): (r: seq<StateRow>)
    ensures !present ==> r == rows + [StateRow(key, stored, now)]
    ensures present ==> |r| == |rows| && forall i :: 0 <= i < |rows| ==>
      r[i] == if rows[i].key == key then StateRow(key, stored, now) else rows[i]
  {
    if !present then rows + [StateRow(key, stored, now)]
    else seq(|rows|, i requires 0 <= i < |rows| => if rows[i].key == key then StateRow(key, stored, now) else rows[i])
  }

  /** After a write, the key reads back the written row whenever the write took the right
      branch: an insert for a key with no row, an update for a key that has one. */
  lemma UpsertReadBack(rows: seq<StateRow>, key: string, stored: string, now: int, present: bool)
    requires present <==> FirstWith(rows, key).Some?
    ensures FirstWith(Upsert(rows, key, stored, now, present), key) == Some(StateRow(key, stored, now))
  {
    var r := Upsert(rows, key, stored, now, present);
    if present {
      var i := FirstIndex(rows, key);
      FirstAt(r, key, i);
    } else {
      FirstAt(r, key, |rows|);
    }
  }

  /** When fetch() reports null for a key that has a row (its stored value renders as
      null, or the read failed), set() inserts a second row, and the first one keeps
      answering reads. */
  lemma NullRowShadowsWrite(rows: seq<StateRow>, key: string, stored: string, now: int)
    requires FirstWith(rows, key).Some?
    ensures FirstWith(Upsert(rows, key, stored, now, false), key) == FirstWith(rows, key)
  {
    var i := FirstIndex(rows, key);
    FirstAt(Upsert(rows, key, stored, now, false), key, i);
  }

  /** A write never changes what another key reads. */
  lemma UpsertOtherKeys(rows: seq<StateRow>, key: string, stored: string, now: int, present: bool, other: string)
    requires other != key
    ensures FirstWith(Upsert(rows, key, stored, now, present), other) == FirstWith(rows, other)
  {
    var r := Upsert(rows, key, stored, now, present);
    if FirstWith(rows, other).Some? {
      var i := FirstIndex(rows, other);
      FirstAt(r, other, i);
    } else {
      assert forall i :: 0 <= i < |r| ==> r[i].key != other;
    }
  }

  /** The row at `i` is the first with its key when no earlier row has that key. */
  lemma {:induction false} FirstAt(rows: seq<StateRow>, key: string, i: nat)
    requires i < |rows| && rows[i].key == key
    requires forall j :: 0 <= j < i ==> rows[j].key != key
    ensures FirstWith(rows, key) == Some(rows[i])
  {
    if i > 0 {
      FirstAt(rows[1..], key, i - 1);
    }
  }

  /** The JSON text set() puts between the brackets: json_encode's output, or 'null'
      where json_encode fails. */
  function EncodedText(json: Json, value: Value): (r: string)
    ensures json.encode(value).None? ==> r == "null"
    ensures json.encode(value).Some? ==> r == json.encode(value).value
  {
    match json.encode(value)
    case None => "null"
    case Some(t) => t
  }

  /** The same text as State.php:59 computes it: `json_encode($value) ?: 'null'` also
      replaces an output that PHP counts as false, the text "0". */
  function EncodedTextAsWritten(json: Json, value: Value): (r: string)
    ensures json.encode(value).Some? && Truthy(json.encode(value).value) ==> r == json.encode(value).value
    ensures json.encode(value).None? || !Truthy(json.encode(value).value) ==> r == "null"
  {
    match json.encode(value)
    case None => "null"
    case Some(t) => if Truthy(t) then t else "null"
  }

  /** json_encode(0) is "0", so as written the integer 0 is stored as [null]; the
      corrected text keeps it. */
  lemma ZeroStoredAsNull(json: Json)
    requires json.encode(Int(0)) == Some("0")
    ensures EncodedTextAsWritten(json, Int(0)) == "null"
    ensures EncodedText(json, Int(0)) == "0"
  {
  }

  /** The two texts differ only on outputs that PHP counts as false. */
  lemma EncodedTextAgrees(json: Json, value: Value)
    requires json.encode(value).Some? ==> Truthy(json.encode(value).value)
    ensures EncodedTextAsWritten(json, value) == EncodedText(json, value)
  {
  }

  /** Escaping a bracketed text escapes only the text: the brackets need no backslash. */
  lemma BracketEscaped(text: string)
    ensures SqlText.AddSlashes("[" + text + "]", SqlText.Special) == "[" + SqlText.AddSlashes(text, SqlText.Special) + "]"
  {
    SqlText.AddSlashesAppend("[", text, SqlText.Special);
    SqlText.AddSlashesAppend("[" + text, "]", SqlText.Special);
  }

  /** fetch()'s normalisation of what the engine reports: null stays null; a trimmed text
      that neither starts with '{' nor ends with '}' is returned as it is; anything else is
      JSON-decoded. */
  function Normalise(json: Json, reported: Option<string>): (r: Value)
    ensures reported.None? ==> r == Null
    ensures reported.Some? && !StartsWith(Trim(reported.value), "{") && !EndsWith(Trim(reported.value), "}")
      ==> r == Str(Trim(reported.value))
    ensures reported.Some? && (StartsWith(Trim(reported.value), "{") || EndsWith(Trim(reported.value), "}"))
      ==> r == json.decode(Trim(reported.value))
  {
    match reported
    case None => Null
    case Some(raw) =>
      var t := Trim(raw);
      if !StartsWith(t, "{") && !EndsWith(t, "}") then Str(t) else json.decode(t)
  }

  /** Normalising the text of a plain-text result gives that result again. */
  lemma NormaliseIdempotent(json: Json, raw: string)
    requires Normalise(json, Some(raw)).Str?
    requires !StartsWith(Trim(raw), "{") && !EndsWith(Trim(raw), "}")
    ensures Normalise(json, Some(Normalise(json, Some(raw)).s)) == Normalise(json, Some(raw))
  {
    TrimIdempotent(raw);
  }

  class State {
    const table: string
    const json: Json
    /** Set by setCluster; null while the store runs without a cluster. */
    var cluster: ShardingCluster.Cluster?
    /** The state table (reads use the bare name, writes may use the prefixed one; both
        address this table). */
    var rows: seq<StateRow>
    var tableExists: bool
    /** The table name the latest write addressed. */
    var lastTarget: string

    constructor(json: Json)
      ensures table == "system.sharding_state" && this.json == json
      ensures cluster == null && rows == [] && !tableExists && lastTarget == ""
    {
      table := "system.sharding_state";
      this.json := json;
      cluster := null;
      rows := [];
      tableExists := false;
      lastTarget := "";
    }

    method SetCluster(c: ShardingCluster.Cluster)
      modifies this`cluster
      ensures cluster == c
    {
      cluster := c;
    }

    /** Writes address the cluster's system table name once a cluster is set, the bare
        name before. */
    function WriteTable(): (r: string)
      reads this`cluster
      ensures cluster == null ==> r == table
      ensures cluster != null && Truthy(cluster.name) ==> r == cluster.name + ":" + table
      ensures cluster != null && !Truthy(cluster.name) ==> r == table
    {
      if cluster == null then table else cluster.GetSystemTableName(table)
    }

    /** What fetch() returns for `key`: the first row's value as the engine renders its
        first element, normalised; null when there is no row, and null as well when the
        SELECT returns no data (`key` in `unreadable`). */
    function Fetch(key: string, unreadable: set<string>): (r: Value)
      reads this`rows
      ensures key in unreadable || FirstWith(rows, key).None? ==> r == Null
      ensures key !in unreadable && FirstWith(rows, key).Some? ==>
        r == Normalise(json, json.first(FirstWith(rows, key).value.value))
    {
      if key in unreadable then Null
      else
        match FirstWith(rows, key)
        case None => Null
        case Some(row) => Normalise(json, json.first(row.value))
    }

    /** The fetched value, or the key's default when fetch() reports null. */
    function Get(key: string, unreadable: set<string>): (r: Value)
      reads this`rows
      ensures Fetch(key, unreadable) != Null ==> r == Fetch(key, unreadable)
      ensures Fetch(key, unreadable) == Null ==> r == Default(key)
      ensures key in DefaultKeys ==> r != Null
    {
      var v := Fetch(key, unreadable);
      if v != Null then v else Default(key)
    }

    /** Rejects null before touching the table; otherwise inserts a row when fetch()
        reports null (also when its read fails) and updates the key's rows when it does
        not. A write the backend rejects is only logged: nothing changes and the call
        still succeeds. */
    method Set(key: string, value: Value, now: int, unreadable: set<string>, rejected: bool) returns (r: Outcome)
      modifies this`rows, this`lastTarget
      ensures value == Null ==> r == Throw(NullValue) && rows == old(rows) && lastTarget == old(lastTarget)
      ensures value != Null ==> r == Pass && lastTarget == WriteTable()
      ensures value != Null && rejected ==> rows == old(rows)
      ensures value != Null && !rejected ==>
        rows == Upsert(old(rows), key, "[" + EncodedText(json, value) + "]", now, old(Fetch(key, unreadable)) != Null)
    {
      if value == Null {
        return Throw(NullValue);
      }
      lastTarget := WriteTable();
      var text := EncodedText(json, value);
      var escaped := SqlText.AddSlashes(text, SqlText.Special);
      var literal := "'" + ("[" + escaped + "]") + "'";
      BracketEscaped(text);
      SqlText.LiteralRoundTrip("[" + text + "]");
      var stored := SqlText.Denoted(literal).value;
      var present := Fetch(key, unreadable) != Null;
      if !rejected {
        rows := Upsert(rows, key, stored, now, present);
      }
      r := Pass;
    }

    /** Every key with a default has a non-null fetched value among the first `n` keys. */
    predicate Filled(n: nat, unreadable: set<string>)
      requires n <= |DefaultKeys|
      reads this`rows
    {
      forall j :: 0 <= j < n ==> Fetch(DefaultKeys[j], unreadable) != Null
    }

    /** Active when the table exists and every key with a default has a non-null fetched
        value; the check stops at the first key that has none, so a failed read of any of
        them makes the store inactive. */
    method IsActive(unreadable: set<string>) returns (active: bool)
      ensures active <==> tableExists && Filled(|DefaultKeys|, unreadable)
    {
      var hasTable := tableExists;
      var hasRequiredFields := false;
      if hasTable {
        hasRequiredFields := true;
        var i := 0;
        while i < |DefaultKeys|
          invariant 0 <= i <= |DefaultKeys|
          invariant hasRequiredFields && Filled(i, unreadable)
        {
          var value := Fetch(DefaultKeys[i], unreadable);
          if value == Null {
            hasRequiredFields := false;
            assert !Filled(|DefaultKeys|, unreadable);
            break;
          }
          assert Filled(i + 1, unreadable);
          i := i + 1;
        }
      }
      active := hasTable && hasRequiredFields;
    }

    /** The existence check of setup(): a present table fails; otherwise an empty table is
        created and handed to the cluster to attach (which fails when no cluster was set). */
    method Setup() returns (r: Outcome)
      modifies this`tableExists, this`rows, cluster
      ensures old(tableExists) ==> r == Throw(AlreadyInitialized) && rows == old(rows) && tableExists
      ensures !old(tableExists) ==> tableExists && rows == []
      ensures !old(tableExists) && cluster == null ==> r == Throw(ClusterNotSet)
      ensures !old(tableExists) && cluster != null ==> (r == Pass &&
        cluster.sent == old(cluster.sent) + (if Truthy(cluster.name) then [cluster.AlterQuery("ADD", [table])] else []))
      ensures cluster != null ==> unchanged(cluster`nodes, cluster`tablesToAttach, cluster`tablesToDetach)
    {
      if tableExists {
        return Throw(AlreadyInitialized);
      }
      tableExists := true;
      rows := [];
      if cluster == null {
        return Throw(ClusterNotSet);
      }
      r := cluster.AttachTables([table]);
    }
  }
}
