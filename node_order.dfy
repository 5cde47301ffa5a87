/** The order in which a set of node ids is listed before it is fingerprinted: byte-wise
    lexicographic comparison, as PHP compares two non-numeric strings. */
module NodeOrder {
  import Text

  /** `a` sorts no later than `b`. */
  predicate Below(a: string, b: string) {
    a == [] || (b != [] && (a[0] < b[0] || (a[0] == b[0] && Below(a[1..], b[1..]))))
  }

  lemma {:induction false} BelowTotal(a: string, b: string)
    ensures Below(a, b) || Below(b, a)
  {
    if a != [] && b != [] && a[0] == b[0] {
      BelowTotal(a[1..], b[1..]);
    }
  }

  lemma {:induction false} BelowReflexive(a: string)
    ensures Below(a, a)
  {
    if a != [] {
      BelowReflexive(a[1..]);
    }
  }

  lemma {:induction false} BelowAntisymmetric(a: string, b: string)
    requires Below(a, b) && Below(b, a)
    ensures a == b
  {
    if a != [] && b != [] {
      BelowAntisymmetric(a[1..], b[1..]);
      assert a == [a[0]] + a[1..] && b == [b[0]] + b[1..];
    }
  }

  lemma {:induction false} BelowTransitive(a: string, b: string, c: string)
    requires Below(a, b) && Below(b, c)
    ensures Below(a, c)
  {
    if a != [] && b != [] && c != [] && a[0] == b[0] == c[0] {
      BelowTransitive(a[1..], b[1..], c[1..]);
    }
  }

  predicate IsLeast(m: string, s: set<string>) {
    m in s && forall x :: x in s ==> Below(m, x)
  }

  lemma {:induction false} LeastExists(s: set<string>)
    requires s != {}
    ensures exists m :: IsLeast(m, s)
    decreases |s|
  {
    var x :| x in s;
    if s != {x} {
      LeastExists(s - {x});
      var m :| IsLeast(m, s - {x});
      BelowTotal(m, x);
      if Below(m, x) {
        assert IsLeast(m, s);
      } else {
        forall y | y in s ensures Below(x, y) {
          if y == x { BelowReflexive(x); } else { BelowTransitive(x, m, y); }
        }
        assert IsLeast(x, s);
      }
    } else {
      BelowReflexive(x);
      assert IsLeast(x, s);
    }
  }

  lemma LeastUnique(s: set<string>)
    ensures forall m, n :: IsLeast(m, s) && IsLeast(n, s) ==> m == n
  {
    forall m, n | IsLeast(m, s) && IsLeast(n, s) ensures m == n {
      BelowAntisymmetric(m, n);
    }
  }

  predicate StrictlyAscending(r: seq<string>) {
    forall i, j :: 0 <= i < j < |r| ==> r[i] != r[j] && Below(r[i], r[j])
  }

  /** Ds\Set::sorted(): the members of `s`, each once, in ascending order. */
  function Sorted(s: set<string>): (r: seq<string>)
    ensures |r| == |s|
    ensures forall x :: x in r <==> x in s
    ensures StrictlyAscending(r)
    decreases |s|
  {
    if s == {} then []
    else
      LeastExists(s);
      LeastUnique(s);
      var m :| IsLeast(m, s);
      [m] + Sorted(s - {m})
  }

  /** The text that getNodesHash() hands to md5: the sorted ids joined with '|'. It is
      empty for no nodes, and no other text splits at '|' into the sorted listing. */
  function Fingerprint(nodes: set<string>): (r: string)
    ensures nodes == {} ==> r == ""
    ensures forall t :: Text.Split(t, '|') == Sorted(nodes) ==> t == r
  {
    Text.Join(Sorted(nodes), "|")
  }

  /** Splitting a non-empty fingerprint at '|' gives back the sorted listing when no id
      contains '|'. */
  lemma FingerprintListing(nodes: set<string>)
    requires nodes != {}
    requires forall x :: x in nodes ==> '|' !in x
    ensures Text.Split(Fingerprint(nodes), '|') == Sorted(nodes)
  {
    Text.SplitJoin(Sorted(nodes), '|');
  }

  /** Two node sets with the same fingerprint text are the same set, provided no id is
      empty or contains '|': the text before hashing loses nothing about membership. */
  lemma FingerprintInjective(a: set<string>, b: set<string>)
    requires "" !in a && "" !in b
    requires forall x :: x in a + b ==> '|' !in x
    requires Fingerprint(a) == Fingerprint(b)
    ensures a == b
  {
    var sa, sb := Sorted(a), Sorted(b);
    if a != {} {
      Text.SplitJoin(sa, '|');
    } else {
      assert Fingerprint(a) == "";
    }
    if b != {} {
      Text.SplitJoin(sb, '|');
    } else {
      assert Fingerprint(b) == "";
    }
    if a == {} || b == {} {
      assert Text.Split("", '|') == [""];
    }
    assert sa == sb;
    SameListingSameSet(a, b);
  }

  /** Sorted() loses nothing: equal listings come from equal sets. */
  lemma SameListingSameSet(a: set<string>, b: set<string>)
    requires Sorted(a) == Sorted(b)
    ensures a == b
  {
    forall x
      ensures x in a <==> x in b
    {
      assert x in a <==> x in Sorted(a);
    }
  }
}
