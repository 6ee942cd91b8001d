/**
 * `collector/info_cmdstats.go`: the metric catalog the commandstats scraper
 * derives from the fields of its own parsed reply.
 */
module InfoCmdStats {
  import opened Metrics

  const HelpPrefix: string := "The stats of "

  /** The descriptor of field `k`: named after the field itself, with a help text that quotes it. */
  function CmdStatsDesc(k: string): MetricDesc {
    MetricDesc("server", k, HelpPrefix + k + ".", ["addr"])
  }

  /** The catalog `initCmdStatsMetricsDesc` builds: one descriptor per field of `m`. */
  function CmdStatsCatalog(m: FieldMap): Catalog {
    map k | k in m :: CmdStatsDesc(k)
  }

  /**
   * `initCmdStatsMetricsDesc`: visits the fields of `m` in an unspecified
   * order (Go's map order) and files a descriptor under each.
   */
  method InitCmdStatsMetricsDesc(m: FieldMap) returns (cat: Catalog)
    ensures cat == CmdStatsCatalog(m)
  {
    cat := map[];
    var rest := m.Keys;
    while rest != {}
      invariant rest <= m.Keys
      invariant cat == map k | k in m.Keys - rest :: CmdStatsDesc(k)
      decreases rest
    {
      var k :| k in rest;
      cat := cat[k := MetricDesc("server", k, HelpPrefix + k + ".", ["addr"])];
      rest := rest - {k};
    }
  }

  /**
   * The catalog has exactly the fields of `m` as keys; each descriptor is
   * named after its own field, in the `server` subsystem with the single
   * label `addr`.
   */
  lemma {:induction false} CmdStatsCatalogShape(m: FieldMap)
    ensures CmdStatsCatalog(m).Keys == m.Keys
    ensures forall k :: k in CmdStatsCatalog(m) ==>
      && CmdStatsCatalog(m)[k].name == k
      && CmdStatsCatalog(m)[k].subsystem == "server" && CmdStatsCatalog(m)[k].labels == ["addr"]
  {
  }

  /** The field can be read back from the help text, so different fields get different help texts. */
  lemma {:induction false} CmdStatsHelpNamesField(k: string)
    ensures var h := CmdStatsDesc(k).help;
      |h| == |HelpPrefix| + |k| + 1 && h[|HelpPrefix|..|h| - 1] == k && h[|h| - 1] == '.'
  {
  }
}
