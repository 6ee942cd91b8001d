/** `collector/util/util.go`: the package-level copy of the CLUSTER NODES extractor. */
module CollectorUtilPkg {
  import opened Metrics
  import opened RedisText
  import CollectorUtil

  /**
   * `GetRedisClusterNodes`, the same extractor as the collector's: the query's
   * error with no addresses, or one address per line of the listing.
   */
  method GetRedisClusterNodes(reply: Reply) returns (addrs: seq<string>, err: Option<string>)
    requires reply.Ok? ==> NodesWellFormed(Lines(reply.text))
    ensures reply.Err? ==> addrs == [] && err == Some(reply.error)
    ensures reply.Ok? ==> && err == None
                          && |addrs| == |Lines(reply.text)|
                          && forall i :: 0 <= i < |addrs| ==> addrs[i] == NodeAddr(Lines(reply.text)[i])
  {
    if reply.Err? {
      return [], Some(reply.error);
    }
    addrs := CollectorUtil.ExtractAddrs(reply.text);
    err := None;
  }
}
