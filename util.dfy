/**
 * `util/util.go`: the other CLUSTER NODES extractor, which drops the query's
 * error, and `ParseInfoSection`, the flat parser without status-word
 * normalisation.
 */
module Util {
  import opened GoStrings
  import opened Metrics
  import opened RedisText
  import CollectorUtil

  /**
   * `GetAllRedisNodes`: no addresses when the query fails (the error itself
   * is discarded), otherwise one address per line of the listing.
   */
  method GetAllRedisNodes(reply: Reply) returns (addrs: seq<string>)
    requires reply.Ok? ==> NodesWellFormed(Lines(reply.text))
    ensures reply.Err? ==> addrs == []
    ensures reply.Ok? ==> && |addrs| == |Lines(reply.text)|
                          && forall i :: 0 <= i < |addrs| ==> addrs[i] == NodeAddr(Lines(reply.text)[i])
  {
    if reply.Err? {
      return [];
    }
    addrs := CollectorUtil.ExtractAddrs(reply.text);
  }

  /**
   * `ParseInfoSection`: for each non-header line, the trimmed text between
   * the first and the second ':' (or the end of the line) under the trimmed
   * text before the first ':', values kept as they stand.
   */
  method ParseInfoSection(section: string) returns (m: FieldMap)
    requires FlatWellFormed(Lines(section))
    ensures m == FlatMap(Lines(section), false)
  {
    var lines := Split(TrimSpace(section), '\n');
    m := map[];
    for i := 0 to |lines|
      invariant FlatWellFormed(lines[..i])
      invariant m == FlatMap(lines[..i], false)
    {
      FlatStep(lines, false, i);
      var line := lines[i];
      if !HasPrefix(line, "#") {
        var arr := Split(line, ':');
        m := m[TrimSpace(arr[0]) := TrimSpace(arr[1])];
      }
    }
    assert lines[..|lines|] == lines;
  }

  /** The Server section of the package's test: a header and two fields between newlines. */
  const ServerHeader: string := "# Server"
  const VersionLine: string := "redis_version:5.0.14"
  const ShaLine: string := "redis_git_sha1:00000000"
  const ServerSection: string := "\n" + ServerHeader + "\n" + VersionLine + "\n" + ShaLine + "\n"

  /** Three pieces joined by a separator. */
  lemma {:induction false} JoinThree(a: string, b: string, c: string, sep: char)
    ensures Join([a, b, c], sep) == a + [sep] + b + [sep] + c
  {
    assert [a, b, c][1..] == [b, c] && [b, c][1..] == [c];
    assert Join([b, c], sep) == b + [sep] + c;
    assert a + [sep] + (b + [sep] + c) == a + [sep] + b + [sep] + c;
  }

  /** One whitespace character on either side of text that neither starts nor ends with one is trimmed away. */
  lemma {:induction false} TrimAround(c: char, body: string, d: char)
    requires IsSpace(c) && IsSpace(d)
    requires body != [] && !IsSpace(body[0]) && !IsSpace(body[|body| - 1])
    ensures TrimSpace([c] + body + [d]) == body
  {
    var s := [c] + body + [d];
    assert s[1..] == body + [d];
    assert LeadingSpace(s[1..]) == 0;
    assert LeadingSpace(s) == 1;
    assert s[..|s| - 1] == [c] + body;
    assert TrailingSpace(s[..|s| - 1]) == 0;
    assert TrailingSpace(s) == 1;
    assert s[1..|s| - 1] == body;
  }

  /**
   * A text of three newline-free lines between a leading and a trailing
   * newline comes back as exactly those lines.
   */
  lemma {:induction false} ThreeLines(a: string, b: string, c: string)
    requires '\n' !in a && '\n' !in b && '\n' !in c
    requires a != [] && !IsSpace(a[0]) && c != [] && !IsSpace(c[|c| - 1])
    ensures Lines("\n" + a + "\n" + b + "\n" + c + "\n") == [a, b, c]
  {
    var body := a + "\n" + b + "\n" + c;
    assert "\n" + a + "\n" + b + "\n" + c + "\n" == ['\n'] + body + ['\n'];
    TrimAround('\n', body, '\n');
    JoinThree(a, b, c, '\n');
    SplitJoin([a, b, c], '\n');
  }

  /** Text that neither starts nor ends with whitespace is its own trim. */
  predicate Trimmed(s: string) {
    s != [] && !IsSpace(s[0]) && !IsSpace(s[|s| - 1])
  }

  lemma {:induction false} TrimmedIsTrim(s: string)
    requires Trimmed(s)
    ensures TrimSpace(s) == s
  {
    assert LeadingSpace(s) == 0 && TrailingSpace(s) == 0;
  }

  /** A line `name:value` with no other ':' and no surrounding space has exactly that name and value. */
  lemma {:induction false} PlainField(name: string, value: string)
    requires ':' !in name && ':' !in value && Trimmed(name) && Trimmed(value)
    ensures var line := name + ":" + value;
      && ':' in line && !IsComment(line) == (name[0] != '#')
      && FieldName(line) == name && FieldText(line) == value
  {
    var line := name + ":" + value;
    assert line[|name|] == ':' && line[0] == name[0];
    assert Join([name, value], ':') == line;
    SplitJoin([name, value], ':');
    TrimmedIsTrim(name);
    TrimmedIsTrim(value);
  }

  /** A header followed by two field lines parses to those two fields, the later one last. */
  lemma {:induction false} HeaderAndTwoFields(header: string, l1: string, l2: string)
    requires IsComment(header)
    requires ':' in l1 && !IsComment(l1) && ':' in l2 && !IsComment(l2)
    ensures FlatWellFormed([header, l1, l2])
    ensures FlatMap([header, l1, l2], false) == map[FieldName(l1) := FieldText(l1)][FieldName(l2) := FieldText(l2)]
  {
    var lines := [header, l1, l2];
    assert lines[..0] == [] && lines[..3] == lines;
    FlatStep(lines, false, 0);
    assert FlatMap(lines[..1], false) == map[];
    FlatStep(lines, false, 1);
    FlatStep(lines, false, 2);
  }

  /** The test's section is cut into its header line and its two field lines. */
  lemma {:induction false} ServerSectionLines()
    ensures Lines(ServerSection) == [ServerHeader, VersionLine, ShaLine]
  {
    ThreeLines(ServerHeader, VersionLine, ShaLine);
  }

  /** A header followed by two plain `name:value` lines parses to exactly those two fields. */
  lemma {:induction false} HeaderAndTwoPlainFields(header: string, n1: string, v1: string, n2: string, v2: string)
    requires IsComment(header)
    requires ':' !in n1 && ':' !in v1 && Trimmed(n1) && Trimmed(v1) && n1[0] != '#'
    requires ':' !in n2 && ':' !in v2 && Trimmed(n2) && Trimmed(v2) && n2[0] != '#'
    ensures var lines := [header, n1 + ":" + v1, n2 + ":" + v2];
      FlatWellFormed(lines) && FlatMap(lines, false) == map[n1 := v1][n2 := v2]
  {
    PlainField(n1, v1);
    PlainField(n2, v2);
    HeaderAndTwoFields(header, n1 + ":" + v1, n2 + ":" + v2);
  }

  /** The test's field names and values are plain: no ':' and no surrounding space. */
  lemma {:induction false} ServerFieldsPlain()
    ensures ':' !in "redis_version" && Trimmed("redis_version") && "redis_version"[0] != '#'
    ensures ':' !in "5.0.14" && Trimmed("5.0.14")
    ensures ':' !in "redis_git_sha1" && Trimmed("redis_git_sha1") && "redis_git_sha1"[0] != '#'
    ensures ':' !in "00000000" && Trimmed("00000000")
  {
  }

  /** The header line is dropped and the two field lines give their fields. */
  lemma {:induction false} ServerLinesParse()
    ensures FlatWellFormed([ServerHeader, VersionLine, ShaLine])
    ensures FlatMap([ServerHeader, VersionLine, ShaLine], false)
         == map["redis_version" := "5.0.14", "redis_git_sha1" := "00000000"]
  {
    assert VersionLine == "redis_version" + ":" + "5.0.14";
    assert ShaLine == "redis_git_sha1" + ":" + "00000000";
    ServerFieldsPlain();
    HeaderAndTwoPlainFields(ServerHeader, "redis_version", "5.0.14", "redis_git_sha1", "00000000");
    assert map["redis_version" := "5.0.14"]["redis_git_sha1" := "00000000"]
        == map["redis_version" := "5.0.14", "redis_git_sha1" := "00000000"];
  }

  /** `ParseInfoSection` on the test's section gives exactly the two fields the test expects. */
  lemma {:induction false} ServerSectionParses()
    ensures FlatWellFormed(Lines(ServerSection))
    ensures FlatMap(Lines(ServerSection), false)
         == map["redis_version" := "5.0.14", "redis_git_sha1" := "00000000"]
  {
    ServerSectionLines();
    ServerLinesParse();
  }
}
