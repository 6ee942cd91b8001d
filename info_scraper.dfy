/**
 * The exported `InfoScraper` of the collector package: a scraper of one flat
 * INFO section under a fixed catalog, with its own copy of the normalising
 * flat parser (`parseInfoSection`).
 */
module CollectorInfoScraper {
  import opened GoStrings
  import opened Metrics
  import opened RedisText
  import opened ScrapeModel

  /**
   * `parseInfoSection`: trims the section, cuts it into lines and, for each
   * line that is not a `#` header, assigns the trimmed text between the first
   * and the second ':' (or the end of the line), status words normalised,
   * to the trimmed text before the first ':'.
   */
  method ParseInfoSection(section: string) returns (m: FieldMap)
    requires FlatWellFormed(Lines(section))
    ensures m == InfoFields(section)
  {
    var trimmed := TrimSpace(section);
    var lines := Split(trimmed, '\n');
    m := map[];
    var i := 0;
    while i < |lines|
      invariant i <= |lines|
      invariant FlatWellFormed(lines[..i])
      invariant m == FlatMap(lines[..i], true)
    {
      FlatStep(lines, true, i);
      var line := lines[i];
      if !HasPrefix(line, "#") {
        var arr := Split(line, ':');
        var v := TrimSpace(arr[1]);
        if v == "ok" || v == "up" {
          v := "1";
        } else if v == "down" {
          v := "0";
        }
        m := m[TrimSpace(arr[0]) := v];
      }
      i := i + 1;
    }
    assert lines[..i] == lines;
  }

  /** The only way this scraper reads a reply: the flat parser, catalog kept. */
  function FlatReader(): (r: Reader)
    ensures r.derive == None
  {
    Reader(InfoFields, None)
  }

  class InfoScraper {
    const section: string
    const sectionHelp: string
    var metricsDesc: Catalog

    /** The struct literal `&InfoScraper{section, sectionHelp, metricsDesc}`. */
    constructor(section: string, sectionHelp: string, metricsDesc: Catalog)
      ensures this.section == section && this.sectionHelp == sectionHelp
      ensures this.metricsDesc == metricsDesc
    {
      this.section := section;
      this.sectionHelp := sectionHelp;
      this.metricsDesc := metricsDesc;
    }

    function Help(): (h: string)
      ensures h == sectionHelp
    {
      sectionHelp
    }

    function Name(): (n: string)
      ensures HasPrefix(n, "info.") && n[5..] == section
    {
      "info." + section
    }

    function Version(): (v: string)
      ensures v == "1.0"
    {
      "1.0"
    }

    /**
     * One scrape over the clients `conns`: connection by connection up to
     * the first failed query, one sample per catalog entry, read from the
     * reply by `parseInfoSection`. The scraper itself is not modified.
     */
    method Scrape(conns: seq<Conn>, numeric: string -> bool) returns (emitted: seq<Sample>, err: Option<ScrapeError>)
      requires Scrapable(FlatReader(), conns)
      ensures Emits(FlatReader(), metricsDesc, conns[..FirstFailure(conns)], emitted)
      ensures err == ScrapeResult(FlatReader(), metricsDesc, conns, emitted, numeric)
    {
      ghost var r := FlatReader();
      emitted := [];
      err := None;
      var i := 0;
      while i < |conns|
        invariant Scraping(r, metricsDesc, conns, i, metricsDesc, emitted, err, numeric)
      {
        var rdb := conns[i];
        if rdb.reply.Err? {
          ScrapeDone(r, metricsDesc, conns, i, metricsDesc, emitted, err, numeric);
          err := Some(QueryFailed(rdb.reply.error));
          return;
        }
        ScrapeReady(r, conns, i);
        var sectionMap := ParseInfoSection(rdb.reply.text);
        var block, parseErr := EmitCatalog(metricsDesc, sectionMap, rdb.addr, numeric);
        ScrapeStep(r, metricsDesc, conns, i, metricsDesc, emitted, err, numeric, metricsDesc, block, parseErr);
        err := parseErr;
        emitted := emitted + block;
        i := i + 1;
      }
      ScrapeDone(r, metricsDesc, conns, i, metricsDesc, emitted, err, numeric);
    }
  }
}
