/**
 * The `infoScraper` of the collector package: a scraper of one INFO section
 * whose catalog (`metricsDesc`) the keyspace and commandstats sections
 * rebuild from every reply, and the constructors of those two scrapers.
 */
module CollectorInfo {
  import opened GoStrings
  import opened Metrics
  import opened RedisText
  import opened ScrapeModel
  import CollectorUtil
  import InfoKeyspace
  import InfoCmdStats

  const KeyspaceHelp := "Collect info keyspace from each redis server."
  const CommandStatsHelp := "Collect info commandstats from each redis server."

  /**
   * How `Scrape` reads a section's reply: the keyspace and commandstats
   * sections, matched by exact name, go through the composite parser and
   * rebuild the catalog from its result; every other section goes through
   * the flat parser and keeps its catalog.
   */
  function ReaderOf(section: string): Reader {
    if section == "keyspace" then Reader(CompositeFields, Some(InfoKeyspace.KeyspaceCatalog))
    else if section == "commandstats" then Reader(CompositeFields, Some(InfoCmdStats.CmdStatsCatalog))
    else Reader(InfoFields, None)
  }

  /**
   * After a keyspace or commandstats scrape that read at least one reply, the
   * catalog's keys are exactly the fields of the last reply read; any other
   * scrape leaves the catalog as it was.
   */
  lemma {:induction false} CatalogFollowsReply(section: string, cat0: Catalog, qs: seq<Conn>)
    requires Answered(ReaderOf(section), qs)
    ensures section != "keyspace" && section != "commandstats" ==> CatalogAfter(ReaderOf(section), cat0, qs) == cat0
    ensures qs == [] ==> CatalogAfter(ReaderOf(section), cat0, qs) == cat0
    ensures (section == "keyspace" || section == "commandstats") && qs != [] ==>
      CompositeWellFormed(Lines(qs[|qs| - 1].reply.text)) &&
      CatalogAfter(ReaderOf(section), cat0, qs).Keys == CompositeFields(qs[|qs| - 1].reply.text).Keys
  {
    if qs != [] {
      var fields := ReaderOf(section).parse(qs[|qs| - 1].reply.text);
      if section == "keyspace" {
        InfoKeyspace.KeyspaceCatalogShape(fields);
      } else if section == "commandstats" {
        InfoCmdStats.CmdStatsCatalogShape(fields);
      }
    }
  }

  /**
   * For the keyspace and commandstats sections, the sample at any position
   * `j` of client `i`'s block is keyed by a field of that client's own
   * parsed reply and carries that field's text: the catalog it is emitted
   * under was derived from exactly that reply.
   */
  lemma {:induction false} KeyInParsed(section: string, cat0: Catalog, qs: seq<Conn>, e: seq<Sample>, i: nat, j: int)
    requires section == "keyspace" || section == "commandstats"
    requires Answered(ReaderOf(section), qs) && Emits(ReaderOf(section), cat0, qs, e) && i < |qs|
    requires Total(Visits(ReaderOf(section), cat0, qs)[..i]) <= j < Total(Visits(ReaderOf(section), cat0, qs)[..i + 1])
    ensures CompositeWellFormed(Lines(qs[i].reply.text))
    ensures j < |e| && e[j].key in CompositeFields(qs[i].reply.text)
    ensures e[j].raw == CompositeFields(qs[i].reply.text)[e[j].key]
  {
    OwnCatalog(section, cat0, qs, i);
    SampleFromReply(ReaderOf(section), cat0, qs, e, i, j);
  }

  /**
   * The catalog in force after client `i` of a keyspace or commandstats
   * scrape has exactly the fields of client `i`'s reply as keys.
   */
  lemma {:induction false} OwnCatalog(section: string, cat0: Catalog, qs: seq<Conn>, i: nat)
    requires section == "keyspace" || section == "commandstats"
    requires Answered(ReaderOf(section), qs) && i < |qs|
    ensures ReaderOf(section).parse == CompositeFields
    ensures Answered(ReaderOf(section), qs[..i + 1]) && CompositeWellFormed(Lines(qs[i].reply.text))
    ensures CatalogAfter(ReaderOf(section), cat0, qs[..i + 1]).Keys == CompositeFields(qs[i].reply.text).Keys
  {
    AnsweredPrefix(ReaderOf(section), qs, i + 1);
    CatalogFollowsReply(section, cat0, qs[..i + 1]);
    assert qs[..i + 1][i] == qs[i];
  }

  /** The name every INFO scraper reports: `info.` and the section. */
  function ScraperName(section: string): (n: string)
    ensures HasPrefix(n, "info.") && n[5..] == section
  {
    "info." + section
  }

  /** Two scrapers report the same name only when they scrape the same section. */
  lemma ScraperNameInjective(s1: string, s2: string)
    ensures ScraperName(s1) == ScraperName(s2) <==> s1 == s2
  {
    if ScraperName(s1) == ScraperName(s2) {
      assert s1 == ScraperName(s1)[5..];
    }
  }

  class InfoScraper {
    const section: string
    const sectionHelp: string
    var metricsDesc: Catalog

    /** The struct literal `&infoScraper{section, sectionHelp, metricsDesc}`. */
    constructor(section: string, sectionHelp: string, metricsDesc: Catalog)
      ensures this.section == section && this.sectionHelp == sectionHelp
      ensures this.metricsDesc == metricsDesc
    {
      this.section := section;
      this.sectionHelp := sectionHelp;
      this.metricsDesc := metricsDesc;
    }

    function Help(): (h: string)
      ensures h == sectionHelp
    {
      sectionHelp
    }

    function Name(): (n: string)
      ensures HasPrefix(n, "info.") && n[5..] == section
    {
      ScraperName(section)
    }

    function Version(): (v: string)
      ensures v == "1.0"
    {
      "1.0"
    }

    /**
     * The dialect switch of one scrape step: the keyspace and commandstats
     * sections parse the reply with the composite parser and replace the
     * catalog with one derived from it; every other section parses it with
     * the flat parser and leaves the catalog alone.
     */
    method ReadSection(sectionRes: string) returns (sectionMap: FieldMap)
      requires ReaderOf(section).parse.requires(sectionRes)
      modifies this
      ensures sectionMap == ReaderOf(section).parse(sectionRes)
      ensures metricsDesc == CatalogFor(ReaderOf(section), old(metricsDesc), sectionMap)
    {
      if section == "keyspace" {
        sectionMap := CollectorUtil.ParseRedisInfoKeyspaceOrCmdstatsResp(sectionRes);
        var desc := InfoKeyspace.InitKeyspaceMetricsDesc(sectionMap);
        metricsDesc := desc;
      } else if section == "commandstats" {
        sectionMap := CollectorUtil.ParseRedisInfoKeyspaceOrCmdstatsResp(sectionRes);
        var desc := InfoCmdStats.InitCmdStatsMetricsDesc(sectionMap);
        metricsDesc := desc;
      } else {
        sectionMap := CollectorUtil.ParseRedisInfoResp(sectionRes);
      }
    }

    /**
     * One scrape over the clients `conns`. It emits, connection by connection
     * up to the first failed query, one sample per entry of the catalog in
     * force; for the keyspace and commandstats sections that catalog is first
     * rebuilt from the connection's own reply and stays in place afterwards.
     */
    method Scrape(conns: seq<Conn>, numeric: string -> bool) returns (emitted: seq<Sample>, err: Option<ScrapeError>)
      requires Scrapable(ReaderOf(section), conns)
      modifies this
      ensures Emits(ReaderOf(section), old(metricsDesc), conns[..FirstFailure(conns)], emitted)
      ensures metricsDesc == CatalogAfter(ReaderOf(section), old(metricsDesc), conns[..FirstFailure(conns)])
      ensures err == ScrapeResult(ReaderOf(section), old(metricsDesc), conns, emitted, numeric)
    {
      ghost var r := ReaderOf(section);
      ghost var cat0 := metricsDesc;
      emitted := [];
      err := None;
      var i := 0;
      while i < |conns|
        invariant Scraping(r, cat0, conns, i, metricsDesc, emitted, err, numeric)
      {
        var rdb := conns[i];
        if rdb.reply.Err? {
          ScrapeDone(r, cat0, conns, i, metricsDesc, emitted, err, numeric);
          err := Some(QueryFailed(rdb.reply.error));
          return;
        }
        ScrapeReady(r, conns, i);
        ghost var cat := metricsDesc;
        var sectionMap := ReadSection(rdb.reply.text);
        var block, parseErr := EmitCatalog(metricsDesc, sectionMap, rdb.addr, numeric);
        ScrapeStep(r, cat0, conns, i, cat, emitted, err, numeric, metricsDesc, block, parseErr);
        err := parseErr;
        emitted := emitted + block;
        i := i + 1;
      }
      ScrapeDone(r, cat0, conns, i, metricsDesc, emitted, err, numeric);
    }
  }

  /** `NewInfoKeyspaceScraper`: the keyspace scraper starts with an empty catalog. */
  method NewInfoKeyspaceScraper() returns (s: InfoScraper)
    ensures fresh(s)
    ensures s.section == "keyspace" && s.sectionHelp == KeyspaceHelp && s.metricsDesc == map[]
  {
    s := new InfoScraper("keyspace", KeyspaceHelp, map[]);
  }

  /** `NewInfoCommandStatsScraper`: the commandstats scraper starts with an empty catalog. */
  method NewInfoCommandStatsScraper() returns (s: InfoScraper)
    ensures fresh(s)
    ensures s.section == "commandstats" && s.sectionHelp == CommandStatsHelp && s.metricsDesc == map[]
  {
    s := new InfoScraper("commandstats", CommandStatsHelp, map[]);
  }
}
