/** The naming rule every sharding component uses to address cluster-scoped tables. */
module TableNames {
  import Text

  /** `table` prefixed with "<cluster>:" when the cluster name is truthy, bare otherwise. */
  function Prefixed(clusterName: string, table: string): (r: string)
    ensures Text.Truthy(clusterName) ==> r == clusterName + ":" + table
    ensures !Text.Truthy(clusterName) ==> r == table
  {
    (if Text.Truthy(clusterName) then clusterName + ":" else "") + table
  }

  /** Under one cluster name, distinct tables get distinct prefixed names. */
  lemma PrefixedInjective(clusterName: string, a: string, b: string)
    requires Prefixed(clusterName, a) == Prefixed(clusterName, b)
    ensures a == b
  {
    var p := Prefixed(clusterName, "");
    assert Prefixed(clusterName, a) == p + a && Prefixed(clusterName, b) == p + b;
    assert a == Prefixed(clusterName, a)[|p|..];
  }
}
