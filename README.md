# redis_exporter INFO scraping core, in Dafny

This project models the part of the Redis Prometheus exporter that turns Redis replies into metric samples. It covers:

- **The flat INFO parsers.** `parseRedisInfoResp`, `parseInfoSection` and the package-level `ParseInfoSection` read `field:value` lines under `# Section` headers. The first two rewrite the status words `ok`/`up` to `1` and `down` to `0`; `ParseInfoSection` keeps values as they stand.
- **The composite parser** of the keyspace and commandstats sections, `parseRedisInfoKeyspaceOrCmdtatsResp`. It flattens `prefix:sub1=v1,sub2=v2` into `prefix_sub1`, `prefix_sub2`, ...
- **The CLUSTER NODES address extractors** `GetRedisClusterNodes` (two copies) and `GetAllRedisNodes`. Each takes the second space-separated token of every line up to its first `@`.
- **The catalogs** (`metricsDesc`) that the keyspace and commandstats scrapers derive from their own parsed reply, and the constructors of those two scrapers.
- **The two scraper types.** `infoScraper` can rebuild its catalog on every reply. `InfoScraper` keeps a fixed catalog. Both have `Name`, `Help`, `Version` and `Scrape`.
  - `Scrape` visits the clients in order and returns the first failed query's error at once.
  - For every client whose query succeeded, it emits one sample per catalog entry, labelled with the client's address.
  - When no query fails, it returns the outcome of the last `strconv.ParseFloat` of the last client, or nil when that client's catalog is empty: each successful query resets the error.

Module layout, one module per source file:

| module | file |
|---|---|
| `GoStrings` | the Go `strings` functions the parsers use: `TrimSpace`, `Split`, `HasPrefix`, `Contains` |
| `Metrics` | the shared value types: reply, metric descriptor, catalog, field map |
| `RedisText` | specification functions for the three text formats, with their lemmas |
| `CollectorUtil` | collector/util.go |
| `CollectorUtilPkg` | collector/util/util.go |
| `Util` | util/util.go |
| `InfoKeyspace` | collector/info_keyspace.go |
| `InfoCmdStats` | collector/info_cmdstats.go |
| `ScrapeModel` | what a scrape emits and returns, and the per-client emission loop both scrapers share |
| `CollectorInfo` | collector/info.go, plus the two `New...Scraper` constructors |
| `CollectorInfoScraper` | collector/info_scraper.go |

Each loop of the source is a method with loop invariants. It is proved to compute a specification function, and the promised properties are proved as lemmas about that function.

Go's map iteration order is random. The loops over maps therefore pick the next key with `:|` from the keys not yet visited, and the emission of one client is specified as a permutation of its catalog's keys.

A scraper reads a reply through a `Reader`: a parser, and optionally a function that derives the catalog from the parsed fields. `CollectorInfo.ReaderOf` gives the reader for a section:

- `keyspace` and `commandstats` (exact, case-sensitive names): the composite parser and their catalog function;
- any other section: the normalising flat parser, and no catalog change.

Points of the code's behaviour that the model keeps as they are:

- **Status words.** Status words are compared exactly, so `OK` stays `OK` (`RedisText.Normalise`).
- **Absent fields.** A catalog field absent from the reply is still emitted, and `""` goes to `ParseFloat` (`ScrapeModel.Lookup`, `ScrapeModel.ConnectionSamples`).
- **Malformed input.** A malformed line makes the source index out of range: a non-header line without `:`, a composite item without `=`, a node line without a space. The model states this as a precondition (`FlatWellFormed`, `CompositeWellFormed`, `NodesWellFormed`, `Scrapable`).
- **Scrape's error.** Besides a failed query, `Scrape` returns the error of the last `ParseFloat` of the last client. An earlier rejected value does not show, and an empty last catalog gives `nil` (`ScrapeModel.ScrapeResult`).

## Model

| member | source | states |
|---|---|---|
| RedisText.Normalise | collector/util.go:43-48 | `ok`/`up` become "1" and `down` becomes "0", compared exactly; no result is a status word, and every other value is kept unchanged |
| RedisText.FlatStep | collector/util.go:38-51 | one turn of a flat parser's loop: a `#` line leaves the map as it was; any other line sets its trimmed field name to its (normalised) trimmed field text |
| RedisText.FlatKeys | collector/util.go:38-51 | the flat parser's keys are exactly the trimmed field names (text before the first ':') of the lines that do not start with `#` |
| RedisText.FlatLastWins | collector/util.go:50 | a field holds the (normalised) trimmed text between the first and the second ':' (or the end of the line) of the last line naming it; earlier lines are overwritten |
| RedisText.FlatValuesNormalised | collector/util.go:42-50 | every value of the normalising parser is the normalised text of some line naming that key, and never `ok`, `up` or `down` |
| RedisText.FlatValuesRaw | util/util.go:36-39 | every value of the non-normalising parser is the trimmed field text of some line naming that key, as it stands |
| RedisText.CompositeStep | collector/util.go:61-71 | one turn of the composite parser's outer loop: a `#` line leaves the map as it was; any other line assigns its items in order |
| RedisText.CompositeKeys | collector/util.go:61-70 | the composite parser's keys are exactly `prefix_sub` for each item `sub=...` of each non-header line with field name `prefix` |
| RedisText.CompositeNoBarePrefix | collector/util.go:61-70 | in the map of a whole reply, every key has a '_' right after the field name of the line that assigned it, so a field name without '_' is never a key |
| RedisText.CompositeLastWins | collector/util.go:61-70 | in the map of a whole reply, `prefix_sub` holds the untrimmed text between the first and the second '=' (or the end of the item) of an item that no later item, on its line or a later line, assigns again |
| RedisText.CompositeSize | collector/util.go:66-69 | the composite map never has more entries than there are items on non-header lines |
| RedisText.ParseLastWins | collector/util.go:38-51 | for any per-line assignments, the last assignment of a key decides its value |
| RedisText.ParseValues | collector/util.go:38-51 | every value in the map was assigned to its key by some line |
| RedisText.NodeAddrBeforeAt | collector/util.go:27 | a node's address is the prefix of its second token before the first '@', and the whole token when there is no '@' |
| RedisText.SecondTokenBetweenSpaces | collector/util.go:25-26 | the second token is the text between the first and second single space of the trimmed line, so two spaces in a row give an empty token |
| RedisText.BlankListingIsMalformed | collector/util.go:22-27 | an empty or all-blank listing is one empty line, which has no second token (the source faults on it) |
| CollectorUtil.ParseRedisInfoResp | collector/util.go:33-54 | the loop computes the normalising flat map of the trimmed reply's lines |
| CollectorUtil.ParseRedisInfoKeyspaceOrCmdstatsResp | collector/util.go:56-74 | the nested loops compute the composite map of the trimmed reply's lines |
| CollectorUtil.AssignItems | collector/util.go:66-69 | the inner loop assigns, item by item in order, the item's text between its first and second '=' (or its end) to `prefix_` plus its text before the first '=' |
| CollectorUtil.ExtractAddrs | collector/util.go:21-28 | one address per line of the trimmed listing, in line order, each the line's second token up to its first '@' |
| CollectorUtil.GetRedisClusterNodes | collector/util.go:13-31 | a failed query gives no addresses and the query's error; otherwise no error and one address per line, in order |
| CollectorUtilPkg.GetRedisClusterNodes | collector/util/util.go:10-28 | the same contract as the collector's copy: error with no addresses, or one address per line |
| Util.GetAllRedisNodes | util/util.go:10-28 | a failed query gives no addresses (its error is dropped); otherwise one address per line, in order |
| Util.ParseInfoSection | util/util.go:30-43 | the loop computes the flat map of the trimmed section's lines, without status-word normalisation |
| Util.HeaderAndTwoFields | util/util.go:30-43 | a header followed by two field lines parses to exactly those two fields, the second line's assignment applied last |
| Util.ServerSectionParses | util/util_test.go:9-23 | the package test's Server section parses to exactly `redis_version -> 5.0.14` and `redis_git_sha1 -> 00000000` |
| InfoKeyspace.InitKeyspaceMetricsDesc | collector/info_keyspace.go:24-50 | the map-order loop builds the keyspace catalog: one descriptor for each field of the parsed reply |
| InfoKeyspace.KeyspaceCatalogShape | collector/info_keyspace.go:41-46 | the catalog's keys are exactly the reply's fields; every descriptor is in subsystem `server` with labels `["addr"]` |
| InfoKeyspace.KeyspaceNaming | collector/info_keyspace.go:30-39 | the first match among `keys`, `expires`, `avg_ttl` gives the name `keyspace_<k>_in_total` or `keyspace_<k>_in_microseconds` and its help text; unrecognised fields get an empty name and help |
| InfoKeyspace.KeyspaceNamesDistinct | collector/info_keyspace.go:30-39 | two recognised fields get the same metric name only when they are the same field |
| InfoCmdStats.InitCmdStatsMetricsDesc | collector/info_cmdstats.go:21-33 | the map-order loop builds the commandstats catalog: one descriptor for each field of the parsed reply |
| InfoCmdStats.CmdStatsCatalogShape | collector/info_cmdstats.go:24-29 | the catalog's keys are exactly the reply's fields; each descriptor is named after its field, in subsystem `server` with labels `["addr"]` |
| InfoCmdStats.CmdStatsHelpNamesField | collector/info_cmdstats.go:27 | the help text is `The stats of <k>.`, and the field can be read back from it |
| ScrapeModel.Lookup | collector/info.go:63 | reading a missing field gives "", a present one its value |
| ScrapeModel.FirstFailure | collector/info.go:38-45 | the position where a scrape stops: every earlier query succeeded and the one there failed, or the end when none did |
| ScrapeModel.EmitCatalog | collector/info.go:61-78 | the emission loop emits one sample per catalog entry, in map order, and its error is the outcome of the last `ParseFloat`, nil for an empty catalog |
| ScrapeModel.BlockSamples | collector/info.go:61-78 | one client's samples are as many as the keys done; each carries its key's descriptor, the client's address and the reply's text for the key |
| ScrapeModel.BlockCovers | collector/info.go:61-78 | no key is emitted twice for one client, and every catalog key is emitted |
| ScrapeModel.VisitsAt | collector/info.go:38-60 | client `i` is emitted under the catalog in force once its own reply was read, from the fields of that reply |
| ScrapeModel.EmitsBlocks | collector/info.go:38-79 | a scrape's output is the clients' runs of samples back to back, in client order |
| ScrapeModel.EmitsLength | collector/info.go:38-79 | a scrape emits as many samples as the sizes of the catalogs in force add up to |
| ScrapeModel.ConnectionSamples | collector/info.go:38-78 | for answered client `i`: exactly one sample per entry of its catalog, labelled with its address and carrying the reply's text for the key ("" when absent) |
| ScrapeModel.FlatEmitCount | collector/info_scraper.go:39-67 | when the catalog never changes, a scrape emits |clients| x |catalog| samples |
| ScrapeModel.NoConnections | collector/info.go:36-38 | with no clients nothing is emitted, the catalog is unchanged and the result is `nil` |
| ScrapeModel.FailedQuery | collector/info.go:42-45 | a failed query ends the scrape with that query's error, and every earlier query had succeeded |
| ScrapeModel.CleanScrape | collector/info_scraper.go:37-70 | when every query succeeds and `ParseFloat` accepts every emitted value, the scrape returns `nil` |
| CollectorInfo.CatalogFollowsReply | collector/info.go:48-59 | after a keyspace or commandstats scrape the catalog's keys are exactly the fields of the last reply read; any other section leaves the catalog alone |
| CollectorInfo.KeyInParsed | collector/info.go:50-63 | for a keyspace or commandstats scrape, the sample at any position `j` of answered client `i`'s block has a key that is a field of that client's own parsed reply, and it carries that field's text |
| CollectorInfo.ScraperName | collector/info.go:25-27 | the name is `info.` followed by the section |
| CollectorInfo.ScraperNameInjective | collector/info.go:25-27 | two scrapers report the same name only when they scrape the same section |
| CollectorInfo.InfoScraper.constructor | collector/info.go:13-17 | a scraper holds its section, help text and catalog |
| CollectorInfo.InfoScraper.Help | collector/info.go:20-22 | the help text is the section help |
| CollectorInfo.InfoScraper.Name | collector/info.go:25-27 | the name starts with `info.` and the rest is the section |
| CollectorInfo.InfoScraper.Version | collector/info.go:30-32 | the version is "1.0" |
| CollectorInfo.InfoScraper.ReadSection | collector/info.go:48-59 | the switch: keyspace and commandstats parse the reply compositely and replace the catalog with the one derived from it; any other section parses it flat and keeps the catalog |
| CollectorInfo.InfoScraper.Scrape | collector/info.go:35-82 | emits the runs of samples of the clients up to the first failed query; the catalog ends as the one derived from the last reply read (or unchanged); the result is the first query error, or else the last `ParseFloat` outcome of the last client, nil when that client's catalog is empty |
| CollectorInfo.NewInfoKeyspaceScraper | collector/info_keyspace.go:52-57 | a new keyspace scraper has section `keyspace`, its help text and an empty catalog |
| CollectorInfo.NewInfoCommandStatsScraper | collector/info_cmdstats.go:35-40 | a new commandstats scraper has section `commandstats`, its help text and an empty catalog |
| CollectorInfoScraper.ParseInfoSection | collector/info_scraper.go:75-95 | the loop computes the normalising flat map of the trimmed section's lines |
| CollectorInfoScraper.FlatReader | collector/info_scraper.go:48 | this scraper reads every reply with the flat parser and never derives a catalog |
| CollectorInfoScraper.InfoScraper.constructor | collector/info_scraper.go:14-18 | a scraper holds its section, help text and catalog |
| CollectorInfoScraper.InfoScraper.Help | collector/info_scraper.go:21-23 | the help text is the section help |
| CollectorInfoScraper.InfoScraper.Name | collector/info_scraper.go:26-28 | the name starts with `info.` and the rest is the section |
| CollectorInfoScraper.InfoScraper.Version | collector/info_scraper.go:31-33 | the version is "1.0" |
| CollectorInfoScraper.InfoScraper.Scrape | collector/info_scraper.go:36-71 | emits, under the unchanged catalog, one run of samples per client up to the first failed query; the result is the first query error, or else the last `ParseFloat` outcome of the last client, nil when that client's catalog is empty; the scraper is not modified |

## Left out

- Floating point. `strconv.ParseFloat` and the gauge values are abstracted. A sample carries the text handed to `ParseFloat`, and `numeric` is a parameter that says which texts it accepts.
- Prometheus. `prometheus.NewDesc`, `BuildFQName` and `MustNewConstMetric` are not modelled; a sample carries the catalog's descriptor and the address label instead. The channel send becomes the `emitted` output sequence. The model therefore does not capture the panic of `MustNewConstMetric` on a descriptor whose name is empty or not a valid metric name: an unrecognised keyspace field gets an empty name, and a commandstats field may contain '|'. The model emits a sample in both cases.
- Logging. `checkParseRedisInfoRespError` and `checkParseResultError` only log, so they are not modelled.
- The Redis client. The context, `rdb.Options().Addr`, the `Info` and `ClusterNodes` queries and `rdb.Close` are given as data: a client is its address and the reply (text or error) its query gets.
- Bytes. Strings are sequences of code points, not bytes, and `TrimSpace` uses Go's Unicode space set; invalid UTF-8 is not modelled.
- Nil slices. Go's distinction between a nil and an empty slice is not modelled; a successful listing always has at least one line.
- Map capacity. The capacity hints given to `make` do not matter to the result.
- Shared loops. The three copies of the CLUSTER NODES loop share one method, `CollectorUtil.ExtractAddrs`. They are identical in the source.
- Not part of this model:
  - collector/exporter.go: goroutines, durations, Ping, and the Collect and Describe plumbing.
  - collector/maxmemory.go.
  - `Scrape` of collector/cluster_info.go, whose helpers are not among the available files.
  - The static catalog tables of the other `info_*.go` files. A scraper's catalog is any map.
- ScrapeModel.EmitCatalog: the emission order is any order of the catalog's keys, which is what Go's map order allows; no particular order is claimed.
- Panics. Malformed input is excluded by preconditions rather than modelled as a panic.
