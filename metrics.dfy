/** Values the exporter's scrapers pass around. */
module Metrics {

  datatype Option<+T> = None | Some(value: T)

  /** The outcome of one Redis query: its text reply, or the client's error. */
  datatype Reply = Ok(text: string) | Err(error: string)

  /**
   * `MetricDesc`: the identity of one emittable metric. The full metric name
   * is built from the namespace, `subsystem` and `name`.
   */
  datatype MetricDesc = MetricDesc(subsystem: string, name: string, help: string, labels: seq<string>)

  /** A scraper's `metricsDesc`: field name of the INFO section to descriptor. */
  type Catalog = map<string, MetricDesc>

  /** A parsed INFO section: field name to raw value text. */
  type FieldMap = map<string, string>
}
