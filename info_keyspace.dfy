/**
 * `collector/info_keyspace.go`: the metric catalog the keyspace scraper
 * derives from the fields of its own parsed reply.
 */
module InfoKeyspace {
  import opened GoStrings
  import opened Metrics

  const KeysHelp: string := "Number of keyspace keys in the redis db"
  const ExpiresHelp: string := "Number of expire keys in the redis db"
  const AvgTtlHelp: string := "The average microseconds to live of all keys in the redis db."

  /** The field names the naming chain recognises, tested in this order. */
  predicate CountsKeys(k: string) { Contains(k, "keys") }
  predicate CountsExpires(k: string) { !CountsKeys(k) && Contains(k, "expires") }
  predicate IsAvgTtl(k: string) { !CountsKeys(k) && !Contains(k, "expires") && Contains(k, "avg_ttl") }

  predicate Recognised(k: string) {
    Contains(k, "keys") || Contains(k, "expires") || Contains(k, "avg_ttl")
  }

  /**
   * The descriptor of field `k`: a field naming keys or expires counts and is
   * named `keyspace_<k>_in_total`, an avg_ttl field is named
   * `keyspace_<k>_in_microseconds`, and any other field gets an empty name
   * and help. The first test that matches wins.
   */
  function KeyspaceDesc(k: string): MetricDesc {
    var (name, help) :=
      if Contains(k, "keys") then ("keyspace_" + k + "_in_total", KeysHelp)
      else if Contains(k, "expires") then ("keyspace_" + k + "_in_total", ExpiresHelp)
      else if Contains(k, "avg_ttl") then ("keyspace_" + k + "_in_microseconds", AvgTtlHelp)
      else ("", "");
    MetricDesc("server", name, help, ["addr"])
  }

  /** The catalog `initKeyspaceMetricsDesc` builds: one descriptor per field of `m`. */
  function KeyspaceCatalog(m: FieldMap): Catalog {
    map k | k in m :: KeyspaceDesc(k)
  }

  /**
   * `initKeyspaceMetricsDesc`: visits the fields of `m` in an unspecified
   * order (Go's map order) and files a descriptor under each.
   */
  method InitKeyspaceMetricsDesc(m: FieldMap) returns (cat: Catalog)
    ensures cat == KeyspaceCatalog(m)
  {
    cat := map[];
    var rest := m.Keys;
    while rest != {}
      invariant rest <= m.Keys
      invariant cat == map k | k in m.Keys - rest :: KeyspaceDesc(k)
      decreases rest
    {
      var k :| k in rest;
      var name := "";
      var help := "";
      if Contains(k, "keys") {
        name := "keyspace_" + k + "_in_total";
        help := KeysHelp;
      } else if Contains(k, "expires") {
        name := "keyspace_" + k + "_in_total";
        help := ExpiresHelp;
      } else if Contains(k, "avg_ttl") {
        name := "keyspace_" + k + "_in_microseconds";
        help := AvgTtlHelp;
      }
      cat := cat[k := MetricDesc("server", name, help, ["addr"])];
      rest := rest - {k};
    }
  }

  /**
   * The catalog has exactly the fields of `m` as keys, and every descriptor
   * is in the `server` subsystem with the single label `addr`.
   */
  lemma {:induction false} KeyspaceCatalogShape(m: FieldMap)
    ensures KeyspaceCatalog(m).Keys == m.Keys
    ensures forall k :: k in KeyspaceCatalog(m) ==>
      KeyspaceCatalog(m)[k].subsystem == "server" && KeyspaceCatalog(m)[k].labels == ["addr"]
  {
  }

  /**
   * The naming chain: which help text a field gets, by the first of the three
   * tests it passes, and that exactly the recognised fields get a name.
   */
  lemma {:induction false} KeyspaceNaming(k: string)
    ensures CountsKeys(k) ==> KeyspaceDesc(k).name == "keyspace_" + k + "_in_total" && KeyspaceDesc(k).help == KeysHelp
    ensures CountsExpires(k) ==> KeyspaceDesc(k).name == "keyspace_" + k + "_in_total" && KeyspaceDesc(k).help == ExpiresHelp
    ensures IsAvgTtl(k) ==> KeyspaceDesc(k).name == "keyspace_" + k + "_in_microseconds" && KeyspaceDesc(k).help == AvgTtlHelp
    ensures KeyspaceDesc(k).name != "" <==> Recognised(k)
    ensures KeyspaceDesc(k).help != "" <==> Recognised(k)
  {
  }

  /** Two recognised fields share a metric name only when they are the same field. */
  lemma {:induction false} KeyspaceNamesDistinct(k1: string, k2: string)
    requires Recognised(k1) && Recognised(k2)
    ensures KeyspaceDesc(k1).name == KeyspaceDesc(k2).name ==> k1 == k2
  {
    var n1, n2 := KeyspaceDesc(k1).name, KeyspaceDesc(k2).name;
    var total, micro := "_in_total", "_in_microseconds";
    var p1, p2 := "keyspace_" + k1, "keyspace_" + k2;
    assert n1 == p1 + total || n1 == p1 + micro;
    assert n2 == p2 + total || n2 == p2 + micro;
    if n1 == n2 {
      if n1[|n1| - 1] == 'l' {
        assert n1 == p1 + total && n2 == p2 + total;
        assert p1 == n1[..|n1| - |total|] == p2;
      } else {
        assert n1 == p1 + micro && n2 == p2 + micro;
        assert p1 == n1[..|n1| - |micro|] == p2;
      }
      assert k1 == p1[9..] == p2[9..] == k2;
    }
  }
}
