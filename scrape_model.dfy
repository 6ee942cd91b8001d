/**
 * What one scrape of an INFO section emits. A scrape visits the connections
 * in order; the first failed query ends it. For every connection whose query
 * succeeded it emits one sample per catalog entry, labelled with the
 * connection's address, in an unspecified order (Go's map order). The
 * keyspace and commandstats scrapers first replace their catalog with one
 * derived from the connection's own reply.
 */
module ScrapeModel {
  import opened Metrics

  /** One Redis client: its address and the reply its INFO query gets. */
  datatype Conn = Conn(addr: string, reply: Reply)

  /**
   * One emitted gauge: the catalog key and descriptor it was emitted for, the
   * `addr` label, and the text handed to `strconv.ParseFloat` ("" when the
   * reply has no such field).
   */
  datatype Sample = Sample(key: string, desc: MetricDesc, addr: string, raw: string)

  /** The error a scrape returns: a failed query, or a value `ParseFloat` rejected. */
  datatype ScrapeError = QueryFailed(message: string) | ParseFailed(raw: string)

  /**
   * How a scraper reads its section's reply: the parser it applies, and, for
   * the sections whose catalog follows the reply, the function that derives
   * the catalog from the parsed fields.
   */
  datatype Reader = Reader(parse: string --> FieldMap, derive: Option<FieldMap -> Catalog>)

  /** `sectionMap[k]`: Go yields the empty string for a missing key. */
  function Lookup(fields: FieldMap, k: string): (v: string)
    ensures k in fields ==> v == fields[k]
    ensures k !in fields ==> v == ""
  {
    if k in fields then fields[k] else ""
  }

  /** The outcome of `strconv.ParseFloat` on `raw`, with `numeric` telling which texts it accepts. */
  function ParseOutcome(raw: string, numeric: string -> bool): Option<ScrapeError> {
    if numeric(raw) then None else Some(ParseFailed(raw))
  }

  /** The catalog in force after a reply with `fields`: derived from them, or kept as `cat`. */
  function CatalogFor(r: Reader, cat: Catalog, fields: FieldMap): Catalog {
    match r.derive
    case None => cat
    case Some(derive) => derive(fields)
  }

  /** Position of the first connection whose query fails, or `|conns|` when none does. */
  function FirstFailure(conns: seq<Conn>): (n: nat)
    ensures n <= |conns|
    ensures forall i :: 0 <= i < n ==> conns[i].reply.Ok?
    ensures n < |conns| ==> conns[n].reply.Err?
  {
    if conns == [] || conns[0].reply.Err? then 0 else 1 + FirstFailure(conns[1..])
  }

  /** Connections whose replies all came back and are ones the parser accepts. */
  ghost predicate Answered(r: Reader, qs: seq<Conn>) {
    forall i :: 0 <= i < |qs| ==> qs[i].reply.Ok? && r.parse.requires(qs[i].reply.text)
  }

  /** What the source demands: every reply up to the first failure is well formed. */
  ghost predicate Scrapable(r: Reader, conns: seq<Conn>) {
    Answered(r, conns[..FirstFailure(conns)])
  }

  /** The catalog after visiting `qs`, starting from `cat0`. */
  function CatalogAfter(r: Reader, cat0: Catalog, qs: seq<Conn>): Catalog
    requires Answered(r, qs)
  {
    if qs == [] then cat0 else CatalogFor(r, cat0, r.parse(qs[|qs| - 1].reply.text))
  }

  /** Every prefix of answered connections is answered. */
  lemma AnsweredPrefix(r: Reader, qs: seq<Conn>, n: nat)
    requires Answered(r, qs) && n <= |qs|
    ensures Answered(r, qs[..n])
  {
    forall j | 0 <= j < n
      ensures qs[..n][j].reply.Ok? && r.parse.requires(qs[..n][j].reply.text)
    {
      assert qs[..n][j] == qs[j];
    }
  }

  /** One more answered, well-formed reply extends the answered connections. */
  lemma AnsweredExtend(r: Reader, qs: seq<Conn>, c: Conn)
    requires Answered(r, qs) && c.reply.Ok? && r.parse.requires(c.reply.text)
    ensures Answered(r, qs + [c])
  {
    forall j | 0 <= j < |qs| + 1
      ensures (qs + [c])[j].reply.Ok? && r.parse.requires((qs + [c])[j].reply.text)
    {
      if j < |qs| {
        assert (qs + [c])[j] == qs[j];
      } else {
        assert (qs + [c])[j] == c;
      }
    }
  }

  /**
   * `b` is the emission so far for the catalog keys in `done`: one sample
   * per key, in some order, each carrying its key's descriptor, the address
   * and the reply's text for that key.
   */
  predicate PartialBlock(b: seq<Sample>, done: set<string>, cat: Catalog, fields: FieldMap, addr: string)
    decreases |b|
  {
    if b == [] then done == {}
    else
      var s := b[|b| - 1];
      && s.key in done && s.key in cat
      && s == Sample(s.key, cat[s.key], addr, Lookup(fields, s.key))
      && PartialBlock(b[..|b| - 1], done - {s.key}, cat, fields, addr)
  }

  /** `b` is one connection's whole emission: a partial block for every catalog key. */
  predicate IsBlock(b: seq<Sample>, cat: Catalog, fields: FieldMap, addr: string) {
    PartialBlock(b, cat.Keys, cat, fields, addr)
  }

  /** One more key's sample extends a partial block. */
  lemma {:induction false} BlockStep(b: seq<Sample>, done: set<string>, cat: Catalog, fields: FieldMap, addr: string, k: string)
    requires PartialBlock(b, done, cat, fields, addr)
    requires k in cat && k !in done
    ensures PartialBlock(b + [Sample(k, cat[k], addr, Lookup(fields, k))], done + {k}, cat, fields, addr)
  {
    var b' := b + [Sample(k, cat[k], addr, Lookup(fields, k))];
    assert b'[..|b|] == b;
    assert (done + {k}) - {k} == done;
  }

  /**
   * What a partial block holds: one sample per key in `done`, every sample
   * for a key in `done`, with its key's descriptor, the address and the
   * reply's text for the key.
   */
  lemma {:induction false} BlockSamples(b: seq<Sample>, done: set<string>, cat: Catalog, fields: FieldMap, addr: string)
    requires PartialBlock(b, done, cat, fields, addr)
    ensures done <= cat.Keys && |b| == |done|
    ensures forall i :: 0 <= i < |b| ==> b[i].key in done
    ensures forall i :: 0 <= i < |b| ==> b[i] == Sample(b[i].key, cat[b[i].key], addr, Lookup(fields, b[i].key))
    decreases |b|
  {
    if b != [] {
      var n := |b| - 1;
      var k := b[n].key;
      var init := b[..n];
      BlockSamples(init, done - {k}, cat, fields, addr);
      assert forall i :: 0 <= i < n ==> b[i] == init[i];
      assert done == (done - {k}) + {k};
    }
  }

  /** No key is emitted twice in a block, and every key in `done` is emitted. */
  lemma {:induction false} BlockCovers(b: seq<Sample>, done: set<string>, cat: Catalog, fields: FieldMap, addr: string)
    requires PartialBlock(b, done, cat, fields, addr)
    ensures forall i, j :: 0 <= i < j < |b| ==> b[i].key != b[j].key
    ensures forall k :: k in done ==> exists i :: 0 <= i < |b| && b[i].key == k
    decreases |b|
  {
    if b != [] {
      var n := |b| - 1;
      var k := b[n].key;
      var init := b[..n];
      BlockCovers(init, done - {k}, cat, fields, addr);
      BlockSamples(init, done - {k}, cat, fields, addr);
      assert forall i :: 0 <= i < n ==> b[i] == init[i];
      forall k' | k' in done ensures exists i :: 0 <= i < |b| && b[i].key == k' {
        if k' == k {
          assert b[n].key == k';
        } else {
          assert k' in done - {k};
          var i :| 0 <= i < n && init[i].key == k';
          assert b[i].key == k';
        }
      }
    }
  }

  /** One connection as the emission loop sees it: the catalog in force, the reply's fields and the address. */
  datatype Visit = Visit(cat: Catalog, fields: FieldMap, addr: string)

  /** The visits of a scrape over the answered connections `qs`, in order. */
  function Visits(r: Reader, cat0: Catalog, qs: seq<Conn>): (vs: seq<Visit>)
    requires Answered(r, qs)
    ensures |vs| == |qs|
  {
    if qs == [] then []
    else
      var c := qs[|qs| - 1];
      Visits(r, cat0, qs[..|qs| - 1]) + [Visit(CatalogAfter(r, cat0, qs), r.parse(c.reply.text), c.addr)]
  }

  /** The visits of a prefix of the connections are a prefix of the visits. */
  lemma {:induction false} VisitsPrefix(r: Reader, cat0: Catalog, qs: seq<Conn>, n: nat)
    requires Answered(r, qs) && n <= |qs|
    ensures Answered(r, qs[..n])
    ensures Visits(r, cat0, qs[..n]) == Visits(r, cat0, qs)[..n]
    decreases |qs|
  {
    AnsweredPrefix(r, qs, n);
    if n < |qs| {
      var m := |qs| - 1;
      AnsweredPrefix(r, qs, m);
      VisitsPrefix(r, cat0, qs[..m], n);
      assert qs[..m][..n] == qs[..n];
      assert Visits(r, cat0, qs)[..m] == Visits(r, cat0, qs[..m]);
    } else {
      assert qs[..n] == qs;
    }
  }

  /**
   * Visit `i` reads connection `i`'s reply, under the catalog in force once
   * that reply was read.
   */
  lemma {:induction false} VisitsAt(r: Reader, cat0: Catalog, qs: seq<Conn>, i: nat)
    requires Answered(r, qs) && i < |qs|
    ensures Visits(r, cat0, qs)[i]
         == Visit(CatalogAfter(r, cat0, qs[..i + 1]), r.parse(qs[i].reply.text), qs[i].addr)
  {
    VisitsPrefix(r, cat0, qs, i + 1);
    var p := qs[..i + 1];
    assert p[..|p| - 1] == qs[..i] && p[|p| - 1] == qs[i];
    assert Visits(r, cat0, qs)[i] == Visits(r, cat0, p)[i];
  }

  /** A flat scrape visits every connection under its unchanged catalog. */
  lemma {:induction false} FlatVisits(r: Reader, cat0: Catalog, qs: seq<Conn>, i: nat)
    requires r.derive == None && Answered(r, qs) && i < |qs|
    ensures Visits(r, cat0, qs)[i].cat == cat0
  {
    VisitsAt(r, cat0, qs, i);
  }

  /** The number of samples the visits `vs` emit. */
  function Total(vs: seq<Visit>): nat {
    if vs == [] then 0 else Total(vs[..|vs| - 1]) + |vs[|vs| - 1].cat|
  }

  /**
   * `e` is what the visits `vs` emit: their blocks back to back, in visit
   * order.
   */
  predicate EmitsAll(vs: seq<Visit>, e: seq<Sample>) {
    if vs == [] then e == []
    else
      var v := vs[|vs| - 1];
      && |v.cat| <= |e|
      && IsBlock(e[|e| - |v.cat|..], v.cat, v.fields, v.addr)
      && EmitsAll(vs[..|vs| - 1], e[..|e| - |v.cat|])
  }

  /** What a scrape over the answered connections `qs` emits. */
  predicate Emits(r: Reader, cat0: Catalog, qs: seq<Conn>, e: seq<Sample>)
    requires Answered(r, qs)
  {
    EmitsAll(Visits(r, cat0, qs), e)
  }

  /**
   * Appending the block of the next answered connection, emitted under the
   * catalog in force once its reply was read, extends the emission.
   */
  lemma {:induction false} EmitsNext(r: Reader, cat0: Catalog, qs: seq<Conn>, e: seq<Sample>, b: seq<Sample>)
    requires Answered(r, qs) && qs != []
    requires Emits(r, cat0, qs[..|qs| - 1], e)
    requires IsBlock(b, CatalogAfter(r, cat0, qs), r.parse(qs[|qs| - 1].reply.text), qs[|qs| - 1].addr)
    ensures Emits(r, cat0, qs, e + b)
  {
    var cat := CatalogAfter(r, cat0, qs);
    BlockSamples(b, cat.Keys, cat, r.parse(qs[|qs| - 1].reply.text), qs[|qs| - 1].addr);
    assert |cat.Keys| == |cat|;
    var e' := e + b;
    assert e'[|e'| - |cat|..] == b && e'[..|e'| - |cat|] == e;
  }

  /** An emission's length is the sum of the sizes of the catalogs in force. */
  lemma {:induction false} EmitsLength(vs: seq<Visit>, e: seq<Sample>)
    requires EmitsAll(vs, e)
    ensures |e| == Total(vs)
  {
    if vs != [] {
      EmitsLength(vs[..|vs| - 1], e[..|e| - |vs[|vs| - 1].cat|]);
    }
  }

  /** If every visit has a catalog of `c` entries, `|vs| * c` samples are emitted. */
  lemma {:induction false} TotalUniform(vs: seq<Visit>, c: nat)
    requires forall i :: 0 <= i < |vs| ==> |vs[i].cat| == c
    ensures Total(vs) == |vs| * c
  {
    if vs != [] {
      var n := |vs| - 1;
      assert forall i :: 0 <= i < n ==> vs[..n][i] == vs[i];
      TotalUniform(vs[..n], c);
      assert n * c + c == |vs| * c;
    }
  }

  /** A flat scrape emits |connections| x |catalog| samples. */
  lemma {:induction false} FlatEmitCount(r: Reader, cat0: Catalog, qs: seq<Conn>, e: seq<Sample>)
    requires r.derive == None && Answered(r, qs) && Emits(r, cat0, qs, e)
    ensures |e| == |qs| * |cat0|
  {
    var vs := Visits(r, cat0, qs);
    forall i | 0 <= i < |vs| ensures |vs[i].cat| == |cat0| {
      FlatVisits(r, cat0, qs, i);
    }
    TotalUniform(vs, |cat0|);
    EmitsLength(vs, e);
  }

  /** Earlier visits never emit more than all of them. */
  lemma {:induction false} TotalGrows(vs: seq<Visit>, i: nat)
    requires i <= |vs|
    ensures Total(vs[..i]) <= Total(vs)
    decreases |vs|
  {
    if i < |vs| {
      var n := |vs| - 1;
      assert vs[..n][..i] == vs[..i];
      TotalGrows(vs[..n], i);
    } else {
      assert vs[..i] == vs;
    }
  }

  /** The last visit's block ends the emission. */
  lemma {:induction false} EmitsLastBlock(vs: seq<Visit>, e: seq<Sample>)
    requires EmitsAll(vs, e) && vs != []
    ensures Total(vs[..|vs| - 1]) <= Total(vs) == |e|
    ensures var v := vs[|vs| - 1]; IsBlock(e[Total(vs[..|vs| - 1])..Total(vs)], v.cat, v.fields, v.addr)
  {
    var n := |vs| - 1;
    var v := vs[n];
    EmitsLength(vs, e);
    EmitsLength(vs[..n], e[..|e| - |v.cat|]);
    assert e[|e| - |v.cat|..] == e[Total(vs[..n])..Total(vs)];
  }

  /**
   * An emission is the visits' blocks back to back, in visit order: the
   * samples of visit `i` sit between the totals of the first `i` and the
   * first `i + 1` visits and form a block for that visit.
   */
  lemma {:induction false} EmitsBlocks(vs: seq<Visit>, e: seq<Sample>, i: nat)
    requires EmitsAll(vs, e) && i < |vs|
    ensures Total(vs[..i]) <= Total(vs[..i + 1]) <= |e|
    ensures IsBlock(e[Total(vs[..i])..Total(vs[..i + 1])], vs[i].cat, vs[i].fields, vs[i].addr)
  {
    var n := |vs| - 1;
    EmitsLastBlock(vs, e);
    assert vs[..n + 1] == vs;
    if i < n {
      var e' := e[..|e| - |vs[n].cat|];
      EmitsLength(vs[..n], e');
      assert vs[..n][..i] == vs[..i] && vs[..n][..i + 1] == vs[..i + 1] && vs[..n][i] == vs[i];
      EmitsBlocks(vs[..n], e', i);
      TotalGrows(vs[..n], i + 1);
      var a, b := Total(vs[..i]), Total(vs[..i + 1]);
      assert e'[a..b] == e[a..b];
    } else {
      assert vs[..i + 1] == vs && vs[i] == vs[n] && vs[..i] == vs[..n];
    }
  }

  /** The facts of a block, read off the stretch `e[lo..hi]` that holds it. */
  lemma {:induction false} BlockWithin(e: seq<Sample>, lo: nat, hi: nat, cat: Catalog, fields: FieldMap, addr: string)
    requires lo <= hi <= |e| && IsBlock(e[lo..hi], cat, fields, addr)
    ensures hi - lo == |cat|
    ensures forall j :: lo <= j < hi ==>
      e[j].key in cat && e[j] == Sample(e[j].key, cat[e[j].key], addr, Lookup(fields, e[j].key))
    ensures forall k :: k in cat ==> exists j :: lo <= j < hi && e[j].key == k
    ensures forall j1, j2 :: lo <= j1 < j2 < hi ==> e[j1].key != e[j2].key
  {
    var b := e[lo..hi];
    BlockSamples(b, cat.Keys, cat, fields, addr);
    BlockCovers(b, cat.Keys, cat, fields, addr);
    assert |cat.Keys| == |cat|;
    assert forall j :: lo <= j < hi ==> e[j] == b[j - lo];
    forall k | k in cat ensures exists j :: lo <= j < hi && e[j].key == k {
      var j :| 0 <= j < |b| && b[j].key == k;
      assert e[lo + j].key == k;
    }
  }

  /**
   * What a scrape emits for answered connection `i`: a run of samples, one
   * for each entry of the catalog in force once its reply was read and no
   * other, each labelled with the connection's address and carrying the
   * reply's text for its key ("" when the reply lacks the field).
   */
  lemma {:induction false} ConnectionSamples(r: Reader, cat0: Catalog, qs: seq<Conn>, e: seq<Sample>, i: nat)
    requires Answered(r, qs) && Emits(r, cat0, qs, e) && i < |qs|
    ensures var vs := Visits(r, cat0, qs);
      var lo, hi := Total(vs[..i]), Total(vs[..i + 1]);
      var cat := CatalogAfter(r, cat0, qs[..i + 1]);
      var fields := r.parse(qs[i].reply.text);
      && lo <= hi <= |e| && hi - lo == |cat|
      && (forall j :: lo <= j < hi ==>
            e[j].key in cat && e[j] == Sample(e[j].key, cat[e[j].key], qs[i].addr, Lookup(fields, e[j].key)))
      && (forall k :: k in cat ==> exists j :: lo <= j < hi && e[j].key == k)
      && (forall j1, j2 :: lo <= j1 < j2 < hi ==> e[j1].key != e[j2].key)
  {
    var vs := Visits(r, cat0, qs);
    EmitsBlocks(vs, e, i);
    VisitsAt(r, cat0, qs, i);
    BlockWithin(e, Total(vs[..i]), Total(vs[..i + 1]), vs[i].cat, vs[i].fields, vs[i].addr);
  }

  /**
   * When the catalog in force for client `i` only has keys of that client's
   * parsed reply, the sample at any position `j` of that client's block is
   * keyed by a field of that reply and carries the field's text.
   */
  lemma {:induction false} SampleFromReply(r: Reader, cat0: Catalog, qs: seq<Conn>, e: seq<Sample>, i: nat, j: int)
    requires Answered(r, qs) && Emits(r, cat0, qs, e) && i < |qs|
    requires Answered(r, qs[..i + 1]) && CatalogAfter(r, cat0, qs[..i + 1]).Keys <= r.parse(qs[i].reply.text).Keys
    requires Total(Visits(r, cat0, qs)[..i]) <= j < Total(Visits(r, cat0, qs)[..i + 1])
    ensures j < |e| && e[j].key in r.parse(qs[i].reply.text)
    ensures e[j].raw == r.parse(qs[i].reply.text)[e[j].key]
  {
    ConnectionSamples(r, cat0, qs, e, i);
  }

  /**
   * The error a scrape returns: the first failed query's error; otherwise the
   * outcome of the last `ParseFloat` of the last connection, which is `nil`
   * when that connection's catalog is empty or there are no connections.
   */
  function ScrapeResult(r: Reader, cat0: Catalog, conns: seq<Conn>, e: seq<Sample>, numeric: string -> bool): Option<ScrapeError>
    requires Scrapable(r, conns)
  {
    var n := FirstFailure(conns);
    if n < |conns| then Some(QueryFailed(conns[n].reply.error))
    else if conns == [] || |CatalogAfter(r, cat0, conns[..n])| == 0 || e == [] then None
    else ParseOutcome(e[|e| - 1].raw, numeric)
  }

  /** With no connections nothing is emitted and the scrape returns `nil`. */
  lemma {:induction false} NoConnections(r: Reader, cat0: Catalog, e: seq<Sample>, numeric: string -> bool)
    requires Emits(r, cat0, [], e)
    ensures e == [] && CatalogAfter(r, cat0, []) == cat0
    ensures ScrapeResult(r, cat0, [], e, numeric) == None
  {
  }

  /**
   * When every query succeeds and `ParseFloat` accepts every emitted value,
   * the scrape returns `nil`.
   */
  lemma {:induction false} CleanScrape(r: Reader, cat0: Catalog, conns: seq<Conn>, e: seq<Sample>, numeric: string -> bool)
    requires Scrapable(r, conns) && FirstFailure(conns) == |conns|
    requires forall j :: 0 <= j < |e| ==> numeric(e[j].raw)
    ensures ScrapeResult(r, cat0, conns, e, numeric) == None
  {
  }

  /** A failed query ends the scrape with that query's error, whatever was emitted before it. */
  lemma {:induction false} FailedQuery(r: Reader, cat0: Catalog, conns: seq<Conn>, e: seq<Sample>, numeric: string -> bool)
    requires Scrapable(r, conns) && FirstFailure(conns) < |conns|
    ensures ScrapeResult(r, cat0, conns, e, numeric) == Some(QueryFailed(conns[FirstFailure(conns)].reply.error))
    ensures forall i :: 0 <= i < FirstFailure(conns) ==> conns[i].reply.Ok?
  {
  }

  /**
   * Where a scrape stands after the first `i` connections: all of them were
   * answered, `cat` is the catalog in force, `e` is what they emitted, and
   * `err` is the outcome of the last `ParseFloat` (`nil` when the last
   * catalog was empty).
   */
  ghost predicate Scraping(r: Reader, cat0: Catalog, conns: seq<Conn>, i: nat, cat: Catalog,
                     e: seq<Sample>, err: Option<ScrapeError>, numeric: string -> bool)
  {
    && i <= FirstFailure(conns) && Answered(r, conns[..i])
    && cat == CatalogAfter(r, cat0, conns[..i])
    && Emits(r, cat0, conns[..i], e)
    && err == if i == 0 || |cat| == 0 || e == [] then None else ParseOutcome(e[|e| - 1].raw, numeric)
  }

  /** The scrape may read connection `i`'s reply: it was answered and is well formed. */
  lemma {:induction false} ScrapeReady(r: Reader, conns: seq<Conn>, i: nat)
    requires Scrapable(r, conns) && i <= FirstFailure(conns) && i < |conns| && conns[i].reply.Ok?
    ensures i < FirstFailure(conns) && r.parse.requires(conns[i].reply.text)
  {
    assert conns[..FirstFailure(conns)][i] == conns[i];
  }

  /**
   * One turn of the scrape loop: connection `i` was answered with `fields`,
   * the catalog became `cat'` and its block was emitted.
   */
  lemma {:induction false} ScrapeStep(r: Reader, cat0: Catalog, conns: seq<Conn>, i: nat, cat: Catalog,
                                      e: seq<Sample>, err: Option<ScrapeError>, numeric: string -> bool,
                                      cat': Catalog, block: seq<Sample>, err': Option<ScrapeError>)
    requires Scrapable(r, conns) && Scraping(r, cat0, conns, i, cat, e, err, numeric)
    requires i < |conns| && conns[i].reply.Ok? && r.parse.requires(conns[i].reply.text)
    requires cat' == CatalogFor(r, cat, r.parse(conns[i].reply.text))
    requires IsBlock(block, cat', r.parse(conns[i].reply.text), conns[i].addr)
    requires err' == if block == [] then None else ParseOutcome(block[|block| - 1].raw, numeric)
    ensures Scraping(r, cat0, conns, i + 1, cat', e + block, err', numeric)
  {
    ScrapeReady(r, conns, i);
    var qs := conns[..i + 1];
    assert qs == conns[..i] + [conns[i]];
    AnsweredExtend(r, conns[..i], conns[i]);
    assert qs[..i] == conns[..i];
    EmitsNext(r, cat0, qs, e, block);
    BlockSamples(block, cat'.Keys, cat', r.parse(conns[i].reply.text), conns[i].addr);
  }

  /** A scrape that has visited every answered connection has done what `Scrape` promises. */
  lemma {:induction false} ScrapeDone(r: Reader, cat0: Catalog, conns: seq<Conn>, i: nat, cat: Catalog,
                                      e: seq<Sample>, err: Option<ScrapeError>, numeric: string -> bool)
    requires Scrapable(r, conns) && Scraping(r, cat0, conns, i, cat, e, err, numeric)
    requires i == |conns| || conns[i].reply.Err?
    ensures i == FirstFailure(conns)
    ensures Emits(r, cat0, conns[..FirstFailure(conns)], e)
    ensures cat == CatalogAfter(r, cat0, conns[..FirstFailure(conns)])
    ensures i == |conns| ==> err == ScrapeResult(r, cat0, conns, e, numeric)
    ensures i < |conns| ==> Some(QueryFailed(conns[i].reply.error)) == ScrapeResult(r, cat0, conns, e, numeric)
  {
    if i == |conns| {
      assert conns[..i] == conns;
    }
  }

  /**
   * Where the emission loop stands: the keys of `cat` are split into `done`
   * and `rest`, `block` is the emission for `done`, and `err` is the outcome
   * of the last `ParseFloat`.
   */
  predicate Emitting(block: seq<Sample>, done: set<string>, rest: set<string>, err: Option<ScrapeError>,
                     cat: Catalog, fields: FieldMap, addr: string, numeric: string -> bool)
  {
    && done !! rest && done + rest == cat.Keys
    && PartialBlock(block, done, cat, fields, addr)
    && (block == [] ==> err == None)
    && (block != [] ==> err == ParseOutcome(block[|block| - 1].raw, numeric))
  }

  /** One turn of the emission loop, on key `k`. */
  lemma {:induction false} EmitStep(block: seq<Sample>, done: set<string>, rest: set<string>, err: Option<ScrapeError>,
                                    cat: Catalog, fields: FieldMap, addr: string, numeric: string -> bool, k: string)
    requires Emitting(block, done, rest, err, cat, fields, addr, numeric)
    requires k in rest
    ensures Emitting(block + [Sample(k, cat[k], addr, Lookup(fields, k))], done + {k}, rest - {k},
                     ParseOutcome(Lookup(fields, k), numeric), cat, fields, addr, numeric)
  {
    BlockStep(block, done, cat, fields, addr, k);
  }

  /**
   * The emission loop for one connection: every catalog entry, in an
   * unspecified order, yields a sample; `err` is the outcome of the last
   * `ParseFloat`.
   */
  method EmitCatalog(cat: Catalog, fields: FieldMap, addr: string, numeric: string -> bool)
    returns (block: seq<Sample>, err: Option<ScrapeError>)
    ensures IsBlock(block, cat, fields, addr)
    ensures err == if block == [] then None else ParseOutcome(block[|block| - 1].raw, numeric)
  {
    block := [];
    err := None;
    var rest := cat.Keys;
    ghost var done: set<string> := {};
    while rest != {}
      invariant Emitting(block, done, rest, err, cat, fields, addr, numeric)
      decreases rest
    {
      var k :| k in rest;
      EmitStep(block, done, rest, err, cat, fields, addr, numeric, k);
      var raw := Lookup(fields, k);
      err := ParseOutcome(raw, numeric);
      block := block + [Sample(k, cat[k], addr, raw)];
      done := done + {k};
      rest := rest - {k};
    }
  }
}
