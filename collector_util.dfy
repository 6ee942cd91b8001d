/**
 * The parsers of `collector/util.go`: the flat and the composite INFO
 * parsers and the CLUSTER NODES address extractor, each a loop proved to
 * compute the function that specifies it.
 */
module CollectorUtil {
  import opened GoStrings
  import opened Metrics
  import opened RedisText

  /**
   * `parseRedisInfoResp`: trims the reply, cuts it into lines and, for each
   * line that is not a `#` header, assigns the trimmed text between the first
   * and the second ':' (or the end of the line), status words normalised,
   * to the trimmed text before the first ':'.
   */
  method ParseRedisInfoResp(resp: string) returns (m: FieldMap)
    requires FlatWellFormed(Lines(resp))
    ensures m == FlatMap(Lines(resp), true)
  {
    var lines := Split(TrimSpace(resp), '\n');
    m := map[];
    for i := 0 to |lines|
      invariant FlatWellFormed(lines[..i])
      invariant m == FlatMap(lines[..i], true)
    {
      FlatStep(lines, true, i);
      var line := lines[i];
      if !HasPrefix(line, "#") {
        var lineArr := Split(line, ':');
        var key := TrimSpace(lineArr[0]);
        var value := TrimSpace(lineArr[1]);
        if value == "ok" || value == "up" {
          value := "1";
        } else if value == "down" {
          value := "0";
        }
        m := m[key := value];
      }
    }
    assert lines[..|lines|] == lines;
  }

  /**
   * The inner loop of `parseRedisInfoKeyspaceOrCmdtatsResp`: each item's
   * text between its first and second '=' (or its end) is assigned to
   * `prefix_` followed by its text before the first '=', in item order.
   */
  method AssignItems(m0: FieldMap, prefix: string, items: seq<string>) returns (m: FieldMap)
    requires ItemsOk(items)
    ensures m == Assign(m0, ItemEntries(prefix, items))
  {
    ghost var es := ItemEntries(prefix, items);
    m := m0;
    for j := 0 to |items|
      invariant m == Assign(m0, es[..j])
    {
      AssignStep(m0, es, j);
      var itemArr := Split(items[j], '=');
      m := m[prefix + "_" + itemArr[0] := itemArr[1]];
    }
    assert es[..|items|] == es;
  }

  /**
   * `parseRedisInfoKeyspaceOrCmdtatsResp`: for each non-header line
   * `prefix:items`, cuts the trimmed items (the text between the first and
   * the second ':') at ',' and assigns each item's text between its first
   * and second '=' to `prefix_` followed by its text before the first '='.
   */
  method ParseRedisInfoKeyspaceOrCmdstatsResp(resp: string) returns (m: FieldMap)
    requires CompositeWellFormed(Lines(resp))
    ensures m == CompositeMap(Lines(resp))
  {
    var lines := Split(TrimSpace(resp), '\n');
    m := map[];
    for i := 0 to |lines|
      invariant CompositeWellFormed(lines[..i])
      invariant m == CompositeMap(lines[..i])
    {
      CompositeStep(lines, i);
      var line := lines[i];
      if !HasPrefix(line, "#") {
        var lineArr := Split(line, ':');
        var prefix := TrimSpace(lineArr[0]);
        var items := Split(TrimSpace(lineArr[1]), ',');
        assert prefix == FieldName(line) && items == Items(line);
        m := AssignItems(m, prefix, items);
      }
    }
    assert lines[..|lines|] == lines;
  }

  /**
   * The loop of `GetRedisClusterNodes`: one address per line of the trimmed
   * listing, in line order.
   */
  method ExtractAddrs(result: string) returns (addrs: seq<string>)
    requires NodesWellFormed(Lines(result))
    ensures |addrs| == |Lines(result)|
    ensures forall i :: 0 <= i < |addrs| ==> addrs[i] == NodeAddr(Lines(result)[i])
  {
    var lines := Split(TrimSpace(result), '\n');
    addrs := [];
    for i := 0 to |lines|
      invariant addrs == MapLines(lines[..i], NodeAddr)
    {
      assert lines[..i + 1][..i] == lines[..i];
      assert NodeLineOk(lines[i]);
      var line := TrimSpace(lines[i]);
      var tokens := Split(line, ' ');
      addrs := addrs + [Split(tokens[1], '@')[0]];
    }
    assert lines[..|lines|] == lines;
    forall i | 0 <= i < |addrs| ensures addrs[i] == NodeAddr(lines[i]) {
      MapLinesAt(lines, NodeAddr, i);
    }
  }

  /**
   * `GetRedisClusterNodes`: the query's error comes back with no addresses;
   * otherwise every line of the listing gives one address.
   */
  method GetRedisClusterNodes(reply: Reply) returns (addrs: seq<string>, err: Option<string>)
    requires reply.Ok? ==> NodesWellFormed(Lines(reply.text))
    ensures reply.Err? ==> addrs == [] && err == Some(reply.error)
    ensures reply.Ok? ==> && err == None
                          && |addrs| == |Lines(reply.text)|
                          && forall i :: 0 <= i < |addrs| ==> addrs[i] == NodeAddr(Lines(reply.text)[i])
  {
    if reply.Err? {
      return [], Some(reply.error);
    }
    addrs := ExtractAddrs(reply.text);
    err := None;
  }
}
