/**
 * What the exporter's parsers compute, stated as functions over the lines of
 * a Redis reply. Three formats:
 *  - the flat INFO dialect, `field:value` lines under `# Section` headers;
 *  - the composite INFO dialect of the keyspace and commandstats sections,
 *    `prefix:sub1=v1,sub2=v2` lines, flattened to `prefix_sub1`, ...;
 *  - the CLUSTER NODES listing, one node per line, whose second
 *    space-separated token is `ip:port@cport`.
 * Both INFO parsers are a loop over the lines that assigns `m[key] = value`
 * for each entry a line yields; `Parse` is that loop for any per-line entry
 * function, and its lemmas are proved once for all of them.
 */
module RedisText {
  import opened GoStrings
  import opened Metrics

  /** A reply is trimmed as a whole and then cut at every '\n'. */
  function Lines(resp: string): seq<string> {
    Split(TrimSpace(resp), '\n')
  }

  /** A section header such as `# Server`: the parsers skip it. */
  predicate IsComment(line: string) {
    HasPrefix(line, "#")
  }

  // ---------------------------------------------------------------------------
  // Building a map from per-line assignments

  /** One `m[key] = value` assignment. */
  datatype Entry = Entry(key: string, value: string)

  /** `m` after the assignments `es`, in order: a later one overwrites an earlier one. */
  function Assign(m: FieldMap, es: seq<Entry>): FieldMap {
    if es == [] then m else Assign(m, es[..|es| - 1])[es[|es| - 1].key := es[|es| - 1].value]
  }

  /** The map a loop over `lines` builds when line `l` makes the assignments `entries(l)`. */
  function Parse(lines: seq<string>, entries: string --> seq<Entry>): FieldMap
    requires forall i :: 0 <= i < |lines| ==> entries.requires(lines[i])
  {
    if lines == [] then map[]
    else Assign(Parse(lines[..|lines| - 1], entries), entries(lines[|lines| - 1]))
  }

  /** The loop step: one more line assigns its entries on top of the map so far. */
  lemma {:induction false} ParseStep(lines: seq<string>, entries: string --> seq<Entry>, i: nat)
    requires i < |lines|
    requires forall i :: 0 <= i < |lines| ==> entries.requires(lines[i])
    ensures Parse(lines[..i + 1], entries) == Assign(Parse(lines[..i], entries), entries(lines[i]))
  {
    assert lines[..i + 1][..i] == lines[..i];
  }

  /** The inner-loop step: one more entry of a line. */
  lemma {:induction false} AssignStep(m: FieldMap, es: seq<Entry>, j: nat)
    requires j < |es|
    ensures Assign(m, es[..j + 1]) == Assign(m, es[..j])[es[j].key := es[j].value]
  {
    assert es[..j + 1][..j] == es[..j];
  }

  lemma {:induction false} AssignKeys(m: FieldMap, es: seq<Entry>)
    ensures Assign(m, es).Keys == m.Keys + set j | 0 <= j < |es| :: es[j].key
  {
    if es != [] {
      var n := |es| - 1;
      AssignKeys(m, es[..n]);
      assert forall j :: 0 <= j < n ==> es[..n][j] == es[j];
      assert (set j | 0 <= j < |es| :: es[j].key) == (set j | 0 <= j < n :: es[..n][j].key) + {es[n].key};
    }
  }

  /** The keys of the map are exactly the keys the lines assign. */
  lemma {:induction false} ParseKeys(lines: seq<string>, entries: string --> seq<Entry>)
    requires forall i :: 0 <= i < |lines| ==> entries.requires(lines[i])
    ensures Parse(lines, entries).Keys
         == set i, j | 0 <= i < |lines| && 0 <= j < |entries(lines[i])| :: entries(lines[i])[j].key
  {
    if lines != [] {
      var n := |lines| - 1;
      var init := lines[..n];
      ParseKeys(init, entries);
      assert forall i :: 0 <= i < n ==> init[i] == lines[i];
      AssignKeys(Parse(init, entries), entries(lines[n]));
      var s := set i, j | 0 <= i < |lines| && 0 <= j < |entries(lines[i])| :: entries(lines[i])[j].key;
      var t := set i, j | 0 <= i < n && 0 <= j < |entries(init[i])| :: entries(init[i])[j].key;
      var u := set j | 0 <= j < |entries(lines[n])| :: entries(lines[n])[j].key;
      assert s == t + u;
    }
  }

  /** An assignment that no later one overwrites determines the key's value. */
  lemma {:induction false} AssignLastWins(m: FieldMap, es: seq<Entry>, j: nat)
    requires j < |es|
    requires forall j' :: j < j' < |es| ==> es[j'].key != es[j].key
    ensures es[j].key in Assign(m, es) && Assign(m, es)[es[j].key] == es[j].value
  {
    var n := |es| - 1;
    if j < n {
      assert forall j' :: 0 <= j' < n ==> es[..n][j'] == es[j'];
      AssignLastWins(m, es[..n], j);
    }
  }

  /** Assignments to other keys leave a key as it was. */
  lemma {:induction false} AssignOthers(m: FieldMap, es: seq<Entry>, k: string)
    requires forall j :: 0 <= j < |es| ==> es[j].key != k
    ensures (k in Assign(m, es) <==> k in m) && (k in m ==> Assign(m, es)[k] == m[k])
  {
    if es != [] {
      assert forall j :: 0 <= j < |es| - 1 ==> es[..|es| - 1][j] == es[j];
      AssignOthers(m, es[..|es| - 1], k);
    }
  }

  /**
   * Entry `j` of line `i` decides its key's value when no later entry, on the
   * same line or a later line, assigns that key again.
   */
  lemma {:induction false} ParseLastWins(lines: seq<string>, entries: string --> seq<Entry>, i: nat, j: nat)
    requires forall i :: 0 <= i < |lines| ==> entries.requires(lines[i])
    requires i < |lines| && j < |entries(lines[i])|
    requires forall j' :: j < j' < |entries(lines[i])| ==> entries(lines[i])[j'].key != entries(lines[i])[j].key
    requires forall i', j' :: i < i' < |lines| && 0 <= j' < |entries(lines[i'])|
               ==> entries(lines[i'])[j'].key != entries(lines[i])[j].key
    ensures var e := entries(lines[i])[j];
      e.key in Parse(lines, entries) && Parse(lines, entries)[e.key] == e.value
  {
    var n := |lines| - 1;
    var init := lines[..n];
    assert forall i' :: 0 <= i' < n ==> init[i'] == lines[i'];
    if i < n {
      ParseLastWins(init, entries, i, j);
      AssignOthers(Parse(init, entries), entries(lines[n]), entries(lines[i])[j].key);
    } else {
      AssignLastWins(Parse(init, entries), entries(lines[n]), j);
    }
  }

  /** A key of `Assign(m, es)` keeps its value from `m` or takes it from one of `es`. */
  lemma {:induction false} AssignFrom(m: FieldMap, es: seq<Entry>, k: string)
    requires k in Assign(m, es)
    ensures || (k in m && Assign(m, es)[k] == m[k])
            || (exists j :: 0 <= j < |es| && es[j] == Entry(k, Assign(m, es)[k]))
  {
    if es != [] {
      var n := |es| - 1;
      if es[n].key != k {
        AssignFrom(m, es[..n], k);
        if exists j :: 0 <= j < n && es[..n][j] == Entry(k, Assign(m, es[..n])[k]) {
          var j :| 0 <= j < n && es[..n][j] == Entry(k, Assign(m, es[..n])[k]);
          assert es[j] == es[..n][j];
        }
      }
    }
  }

  /** Every value in the map was assigned to its key by some entry of some line. */
  lemma {:induction false} ParseValues(lines: seq<string>, entries: string --> seq<Entry>, k: string)
    requires forall i :: 0 <= i < |lines| ==> entries.requires(lines[i])
    requires k in Parse(lines, entries)
    ensures exists i, j :: 0 <= i < |lines| && 0 <= j < |entries(lines[i])|
                        && entries(lines[i])[j] == Entry(k, Parse(lines, entries)[k])
  {
    var n := |lines| - 1;
    var init := lines[..n];
    assert forall i' :: 0 <= i' < n ==> init[i'] == lines[i'];
    var m := Parse(init, entries);
    AssignFrom(m, entries(lines[n]), k);
    if k in m && Parse(lines, entries)[k] == m[k] {
      ParseValues(init, entries, k);
      var i, j :| 0 <= i < n && 0 <= j < |entries(init[i])| && entries(init[i])[j] == Entry(k, m[k]);
      assert entries(lines[i])[j] == Entry(k, Parse(lines, entries)[k]);
    } else {
      var j :| 0 <= j < |entries(lines[n])| && entries(lines[n])[j] == Entry(k, Parse(lines, entries)[k]);
    }
  }

  /** The number of entries all lines yield. */
  function EntryCount(lines: seq<string>, entries: string --> seq<Entry>): nat
    requires forall i :: 0 <= i < |lines| ==> entries.requires(lines[i])
  {
    if lines == [] then 0
    else EntryCount(lines[..|lines| - 1], entries) + |entries(lines[|lines| - 1])|
  }

  lemma {:induction false} AssignSize(m: FieldMap, es: seq<Entry>)
    ensures |Assign(m, es)| <= |m| + |es|
  {
    if es != [] {
      AssignSize(m, es[..|es| - 1]);
    }
  }

  /** The map never has more entries than the lines assign. */
  lemma {:induction false} ParseSize(lines: seq<string>, entries: string --> seq<Entry>)
    requires forall i :: 0 <= i < |lines| ==> entries.requires(lines[i])
    ensures |Parse(lines, entries)| <= EntryCount(lines, entries)
  {
    if lines != [] {
      var n := |lines| - 1;
      ParseSize(lines[..n], entries);
      AssignSize(Parse(lines[..n], entries), entries(lines[n]));
    }
  }

  // ---------------------------------------------------------------------------
  // Flat dialect

  /** The parser indexes the second piece of `strings.Split(line, ":")`: every non-header line needs a ':'. */
  predicate FlatLineOk(line: string) {
    IsComment(line) || ':' in line
  }

  predicate FlatWellFormed(lines: seq<string>) {
    forall i :: 0 <= i < |lines| ==> FlatLineOk(lines[i])
  }

  /** The trimmed text before the first ':'. */
  function FieldName(line: string): string
    requires ':' in line
  {
    TrimSpace(Split(line, ':')[0])
  }

  /** The trimmed text between the first and the second ':' (or the end of the line). */
  function FieldText(line: string): string
    requires ':' in line
  {
    TrimSpace(Split(line, ':')[1])
  }

  /**
   * The status words `ok` and `up` become "1" and `down` becomes "0"; the
   * match is exact and case-sensitive, and every other value is kept.
   */
  function Normalise(v: string): (r: string)
    ensures v == "ok" || v == "up" ==> r == "1"
    ensures v == "down" ==> r == "0"
    ensures r != "ok" && r != "up" && r != "down"
    ensures v != "ok" && v != "up" && v != "down" ==> r == v
  {
    if v == "ok" || v == "up" then "1" else if v == "down" then "0" else v
  }

  /** A flat line assigns its field text to its field name; a header assigns nothing. */
  function FlatLine(line: string): seq<Entry>
    requires FlatLineOk(line)
  {
    if IsComment(line) then [] else [Entry(FieldName(line), FieldText(line))]
  }

  /** The same, with the status words normalised. */
  function FlatLineNormalised(line: string): seq<Entry>
    requires FlatLineOk(line)
  {
    if IsComment(line) then [] else [Entry(FieldName(line), Normalise(FieldText(line)))]
  }

  function FlatEntries(normalise: bool): string --> seq<Entry> {
    if normalise then FlatLineNormalised else FlatLine
  }

  /** The map a flat parser builds from `lines`. */
  function FlatMap(lines: seq<string>, normalise: bool): FieldMap
    requires FlatWellFormed(lines)
  {
    Parse(lines, FlatEntries(normalise))
  }

  /** What the normalising flat parsers make of a whole reply. */
  function InfoFields(resp: string): FieldMap
    requires FlatWellFormed(Lines(resp))
  {
    FlatMap(Lines(resp), true)
  }

  /**
   * The loop step of a flat parser: a header leaves the map as it was, any
   * other line sets its field name to its (normalised) field text.
   */
  lemma {:induction false} FlatStep(lines: seq<string>, normalise: bool, i: nat)
    requires i < |lines| && FlatWellFormed(lines[..i]) && FlatLineOk(lines[i])
    ensures FlatWellFormed(lines[..i + 1])
    ensures IsComment(lines[i]) ==> FlatMap(lines[..i + 1], normalise) == FlatMap(lines[..i], normalise)
    ensures !IsComment(lines[i]) ==>
      var v := if normalise then Normalise(FieldText(lines[i])) else FieldText(lines[i]);
      FlatMap(lines[..i + 1], normalise) == FlatMap(lines[..i], normalise)[FieldName(lines[i]) := v]
  {
    var p := lines[..i + 1];
    assert p[..i] == lines[..i] && p[i] == lines[i];
    assert FlatWellFormed(p);
    var f := FlatEntries(normalise);
    ParseStep(p, f, i);
    assert p[..i + 1] == p;
    if !IsComment(lines[i]) {
      var v := if normalise then Normalise(FieldText(lines[i])) else FieldText(lines[i]);
      var e := Entry(FieldName(lines[i]), v);
      assert f(lines[i]) == [e];
      assert [e][..0] == [];
    }
  }

  /** A header yields no entry; any other line yields one, under its field name. */
  lemma {:induction false} FlatLineShape(line: string, normalise: bool)
    requires FlatLineOk(line)
    ensures |FlatEntries(normalise)(line)| == if IsComment(line) then 0 else 1
    ensures !IsComment(line) ==> FlatEntries(normalise)(line)[0].key == FieldName(line)
  {
  }

  /** Every non-header line's field name is a key. */
  lemma {:induction false} FlatKeyOf(lines: seq<string>, normalise: bool, i: nat)
    requires FlatWellFormed(lines)
    requires i < |lines| && !IsComment(lines[i])
    ensures FieldName(lines[i]) in FlatMap(lines, normalise)
  {
    var f := FlatEntries(normalise);
    ParseKeys(lines, f);
    FlatLineShape(lines[i], normalise);
    assert FieldName(lines[i]) == f(lines[i])[0].key;
  }

  /** Every key is the field name of some non-header line. */
  lemma {:induction false} FlatKeyFrom(lines: seq<string>, normalise: bool, k: string)
    requires FlatWellFormed(lines)
    requires k in FlatMap(lines, normalise)
    ensures exists i :: 0 <= i < |lines| && !IsComment(lines[i]) && FieldName(lines[i]) == k
  {
    var f := FlatEntries(normalise);
    ParseValues(lines, f, k);
    var i, j :| 0 <= i < |lines| && 0 <= j < |f(lines[i])| && f(lines[i])[j] == Entry(k, FlatMap(lines, normalise)[k]);
    FlatLineShape(lines[i], normalise);
  }

  /** The keys are exactly the field names of the non-header lines. */
  lemma {:induction false} FlatKeys(lines: seq<string>, normalise: bool)
    requires FlatWellFormed(lines)
    ensures forall k :: k in FlatMap(lines, normalise)
                    <==> exists i :: 0 <= i < |lines| && !IsComment(lines[i]) && FieldName(lines[i]) == k
  {
    forall k ensures k in FlatMap(lines, normalise)
                 <==> exists i :: 0 <= i < |lines| && !IsComment(lines[i]) && FieldName(lines[i]) == k
    {
      if k in FlatMap(lines, normalise) {
        FlatKeyFrom(lines, normalise, k);
      }
      if exists i :: 0 <= i < |lines| && !IsComment(lines[i]) && FieldName(lines[i]) == k {
        var i :| 0 <= i < |lines| && !IsComment(lines[i]) && FieldName(lines[i]) == k;
        FlatKeyOf(lines, normalise, i);
      }
    }
  }

  /**
   * A field holds the (normalised) text of the last line that names it,
   * whatever earlier lines assigned.
   */
  lemma {:induction false} FlatLastWins(lines: seq<string>, normalise: bool, i: nat)
    requires FlatWellFormed(lines)
    requires i < |lines| && !IsComment(lines[i])
    requires forall i' :: i < i' < |lines| && !IsComment(lines[i']) ==> FieldName(lines[i']) != FieldName(lines[i])
    ensures FieldName(lines[i]) in FlatMap(lines, normalise)
    ensures FlatMap(lines, normalise)[FieldName(lines[i])]
         == if normalise then Normalise(FieldText(lines[i])) else FieldText(lines[i])
  {
    var f := FlatEntries(normalise);
    forall i', j' | i < i' < |lines| && 0 <= j' < |f(lines[i'])|
      ensures f(lines[i'])[j'].key != f(lines[i])[0].key
    {
    }
    ParseLastWins(lines, f, i, 0);
  }

  /**
   * Every value of the normalised map is the normalised field text of a line
   * naming that field; in particular no value is a status word.
   */
  lemma {:induction false} FlatValuesNormalised(lines: seq<string>, k: string)
    requires FlatWellFormed(lines)
    requires k in FlatMap(lines, true)
    ensures exists i :: 0 <= i < |lines| && !IsComment(lines[i]) && FieldName(lines[i]) == k
                     && FlatMap(lines, true)[k] == Normalise(FieldText(lines[i]))
    ensures FlatMap(lines, true)[k] !in {"ok", "up", "down"}
  {
    var f := FlatEntries(true);
    ParseValues(lines, f, k);
    var i, j :| 0 <= i < |lines| && 0 <= j < |f(lines[i])| && f(lines[i])[j] == Entry(k, FlatMap(lines, true)[k]);
    assert !IsComment(lines[i]) && FieldName(lines[i]) == k;
  }

  /** Without normalisation every value is the field text of a line naming that field, as it stands. */
  lemma {:induction false} FlatValuesRaw(lines: seq<string>, k: string)
    requires FlatWellFormed(lines)
    requires k in FlatMap(lines, false)
    ensures exists i :: 0 <= i < |lines| && !IsComment(lines[i]) && FieldName(lines[i]) == k
                     && FlatMap(lines, false)[k] == FieldText(lines[i])
  {
    var f := FlatEntries(false);
    ParseValues(lines, f, k);
    var i, j :| 0 <= i < |lines| && 0 <= j < |f(lines[i])| && f(lines[i])[j] == Entry(k, FlatMap(lines, false)[k]);
    assert !IsComment(lines[i]) && FieldName(lines[i]) == k;
  }

  // ---------------------------------------------------------------------------
  // Composite dialect

  /** The comma-separated items between the first and the second ':' (the item list is trimmed as a whole). */
  function Items(line: string): seq<string>
    requires ':' in line
  {
    Split(FieldText(line), ',')
  }

  predicate ItemsOk(items: seq<string>) {
    forall j :: 0 <= j < |items| ==> '=' in items[j]
  }

  /** Besides the ':', the parser indexes the second piece of `strings.Split(item, "=")`. */
  predicate CompositeLineOk(line: string) {
    IsComment(line) || (':' in line && ItemsOk(Items(line)))
  }

  predicate CompositeWellFormed(lines: seq<string>) {
    forall i :: 0 <= i < |lines| ==> CompositeLineOk(lines[i])
  }

  /** `fmt.Sprintf("%s_%s", prefix, sub)` with `sub` the text before the item's first '='. */
  function ItemKey(prefix: string, item: string): string
    requires '=' in item
  {
    prefix + "_" + Split(item, '=')[0]
  }

  /** The text between the item's first and second '=', untrimmed. */
  function ItemValue(item: string): string
    requires '=' in item
  {
    Split(item, '=')[1]
  }

  /** The assignments of the items of one line, each under `prefix_sub`. */
  function ItemEntries(prefix: string, items: seq<string>): (es: seq<Entry>)
    requires ItemsOk(items)
    ensures |es| == |items|
  {
    seq(|items|, j requires 0 <= j < |items| => Entry(ItemKey(prefix, items[j]), ItemValue(items[j])))
  }

  /** A composite line assigns each of its items under `prefix_sub`; a header assigns nothing. */
  function CompositeLine(line: string): (es: seq<Entry>)
    requires CompositeLineOk(line)
    ensures !IsComment(line) ==> |es| == |Items(line)|
  {
    if IsComment(line) then [] else ItemEntries(FieldName(line), Items(line))
  }

  /** The map the composite parser's two nested loops build from `lines`. */
  function CompositeMap(lines: seq<string>): FieldMap
    requires CompositeWellFormed(lines)
  {
    Parse(lines, CompositeLine)
  }

  /** What the composite parser makes of a whole reply. */
  function CompositeFields(resp: string): FieldMap
    requires CompositeWellFormed(Lines(resp))
  {
    CompositeMap(Lines(resp))
  }

  /**
   * The outer loop step of the composite parser: a header leaves the map as
   * it was, any other line assigns its items in order.
   */
  lemma {:induction false} CompositeStep(lines: seq<string>, i: nat)
    requires i < |lines| && CompositeWellFormed(lines[..i]) && CompositeLineOk(lines[i])
    ensures CompositeWellFormed(lines[..i + 1])
    ensures IsComment(lines[i]) ==> CompositeMap(lines[..i + 1]) == CompositeMap(lines[..i])
    ensures !IsComment(lines[i]) ==>
      CompositeMap(lines[..i + 1]) == Assign(CompositeMap(lines[..i]), ItemEntries(FieldName(lines[i]), Items(lines[i])))
  {
    var p := lines[..i + 1];
    assert p[..i] == lines[..i] && p[i] == lines[i];
  }

  /** Entry `j` of a composite line is item `j` under its prefixed key. */
  lemma {:induction false} CompositeLineShape(line: string, j: nat)
    requires CompositeLineOk(line) && !IsComment(line)
    requires j < |Items(line)|
    ensures CompositeLine(line)[j] == Entry(ItemKey(FieldName(line), Items(line)[j]), ItemValue(Items(line)[j]))
  {
  }

  /**
   * The keys are exactly `prefix_sub` for every item `sub=...` of every
   * non-header line with field name `prefix`.
   */
  lemma {:induction false} CompositeKeys(lines: seq<string>)
    requires CompositeWellFormed(lines)
    ensures forall k :: k in CompositeMap(lines)
                    <==> exists i, j :: 0 <= i < |lines| && !IsComment(lines[i]) && 0 <= j < |Items(lines[i])|
                                     && ItemKey(FieldName(lines[i]), Items(lines[i])[j]) == k
  {
    ParseKeys(lines, CompositeLine);
    forall k ensures k in CompositeMap(lines)
                 <==> exists i, j :: 0 <= i < |lines| && !IsComment(lines[i]) && 0 <= j < |Items(lines[i])|
                                  && ItemKey(FieldName(lines[i]), Items(lines[i])[j]) == k
    {
      if k in CompositeMap(lines) {
        var i, j :| 0 <= i < |lines| && 0 <= j < |CompositeLine(lines[i])| && k == CompositeLine(lines[i])[j].key;
        assert !IsComment(lines[i]);
        CompositeLineShape(lines[i], j);
      }
      if exists i, j :: 0 <= i < |lines| && !IsComment(lines[i]) && 0 <= j < |Items(lines[i])|
                      && ItemKey(FieldName(lines[i]), Items(lines[i])[j]) == k {
        var i, j :| 0 <= i < |lines| && !IsComment(lines[i]) && 0 <= j < |Items(lines[i])|
                    && ItemKey(FieldName(lines[i]), Items(lines[i])[j]) == k;
        CompositeLineShape(lines[i], j);
        assert k == CompositeLine(lines[i])[j].key;
      }
    }
  }

  /**
   * Every key carries a '_' right after the field name of the line that
   * assigned it, so a field name without '_' is never a key of its own.
   */
  lemma {:induction false} CompositeNoBarePrefix(lines: seq<string>, i: nat)
    requires CompositeWellFormed(lines)
    requires i < |lines| && !IsComment(lines[i]) && '_' !in FieldName(lines[i])
    ensures FieldName(lines[i]) !in CompositeMap(lines)
  {
    CompositeKeys(lines);
    forall k | k in CompositeMap(lines) ensures '_' in k {
      var i', j' :| 0 <= i' < |lines| && !IsComment(lines[i']) && 0 <= j' < |Items(lines[i'])|
                    && ItemKey(FieldName(lines[i']), Items(lines[i'])[j']) == k;
      assert k[|FieldName(lines[i'])|] == '_';
    }
  }

  /**
   * Item `j` of line `i`, `sub=v`, decides the value of `prefix_sub`: it is
   * the untrimmed `v` whenever no later item of that line and no item of a
   * later line assigns the same key again.
   */
  lemma {:induction false} CompositeLastWins(lines: seq<string>, i: nat, j: nat)
    requires CompositeWellFormed(lines)
    requires i < |lines| && !IsComment(lines[i]) && j < |Items(lines[i])|
    requires forall j' :: j < j' < |Items(lines[i])|
               ==> ItemKey(FieldName(lines[i]), Items(lines[i])[j']) != ItemKey(FieldName(lines[i]), Items(lines[i])[j])
    requires forall i', j' :: i < i' < |lines| && !IsComment(lines[i']) && 0 <= j' < |Items(lines[i'])|
               ==> ItemKey(FieldName(lines[i']), Items(lines[i'])[j']) != ItemKey(FieldName(lines[i]), Items(lines[i])[j])
    ensures ItemKey(FieldName(lines[i]), Items(lines[i])[j]) in CompositeMap(lines)
    ensures CompositeMap(lines)[ItemKey(FieldName(lines[i]), Items(lines[i])[j])] == ItemValue(Items(lines[i])[j])
  {
    CompositeLineShape(lines[i], j);
    forall j' | j < j' < |CompositeLine(lines[i])|
      ensures CompositeLine(lines[i])[j'].key != CompositeLine(lines[i])[j].key
    {
      CompositeLineShape(lines[i], j');
    }
    forall i', j' | i < i' < |lines| && 0 <= j' < |CompositeLine(lines[i'])|
      ensures CompositeLine(lines[i'])[j'].key != CompositeLine(lines[i])[j].key
    {
      assert !IsComment(lines[i']);
      CompositeLineShape(lines[i'], j');
    }
    ParseLastWins(lines, CompositeLine, i, j);
  }

  /** The number of items on the non-header lines. */
  function ItemCount(lines: seq<string>): nat
    requires CompositeWellFormed(lines)
  {
    if lines == [] then 0
    else
      var line := lines[|lines| - 1];
      ItemCount(lines[..|lines| - 1]) + if IsComment(line) then 0 else |Items(line)|
  }

  /** There are never more entries than items on the non-header lines. */
  lemma {:induction false} CompositeSize(lines: seq<string>)
    requires CompositeWellFormed(lines)
    ensures |CompositeMap(lines)| <= ItemCount(lines)
  {
    ParseSize(lines, CompositeLine);
    ItemCountIsEntryCount(lines);
  }

  lemma {:induction false} ItemCountIsEntryCount(lines: seq<string>)
    requires CompositeWellFormed(lines)
    ensures EntryCount(lines, CompositeLine) == ItemCount(lines)
  {
    if lines != [] {
      ItemCountIsEntryCount(lines[..|lines| - 1]);
    }
  }

  // ---------------------------------------------------------------------------
  // CLUSTER NODES listing

  /** The extractor indexes the second piece of `strings.Split(TrimSpace(line), " ")`. */
  predicate NodeLineOk(line: string) {
    ' ' in TrimSpace(line)
  }

  predicate NodesWellFormed(lines: seq<string>) {
    forall i :: 0 <= i < |lines| ==> NodeLineOk(lines[i])
  }

  /** The second single-space-separated token of the trimmed line. */
  function SecondToken(line: string): string
    requires NodeLineOk(line)
  {
    Split(TrimSpace(line), ' ')[1]
  }

  /** The node's address: its second token up to the first '@'. */
  function NodeAddr(line: string): string
    requires NodeLineOk(line)
  {
    Split(SecondToken(line), '@')[0]
  }

  /** `f` of every line, in line order. */
  function MapLines(lines: seq<string>, f: string --> string): (r: seq<string>)
    requires forall i :: 0 <= i < |lines| ==> f.requires(lines[i])
    ensures |r| == |lines|
  {
    if lines == [] then [] else MapLines(lines[..|lines| - 1], f) + [f(lines[|lines| - 1])]
  }

  /** Entry `i` of the result is `f` of line `i`. */
  lemma {:induction false} MapLinesAt(lines: seq<string>, f: string --> string, i: nat)
    requires forall i :: 0 <= i < |lines| ==> f.requires(lines[i])
    requires i < |lines|
    ensures MapLines(lines, f)[i] == f(lines[i])
  {
    var n := |lines| - 1;
    var init := lines[..n];
    if i < n {
      assert init[i] == lines[i];
      MapLinesAt(init, f, i);
    }
  }

  /**
   * The address is the prefix of the second token before its first '@', and
   * the whole token when it has no '@'.
   */
  lemma {:induction false} NodeAddrBeforeAt(line: string)
    requires NodeLineOk(line)
    ensures var tok, a := SecondToken(line), NodeAddr(line);
      && HasPrefix(tok, a) && '@' !in a
      && (|a| < |tok| ==> tok[|a|] == '@')
      && ('@' !in tok ==> a == tok)
  {
    SplitHead(SecondToken(line), '@');
  }

  /**
   * The second token is the text between the first and the second single
   * space of the trimmed line; two spaces in a row delimit an empty token.
   */
  lemma {:induction false} SecondTokenBetweenSpaces(line: string)
    requires NodeLineOk(line)
    ensures var t := TrimSpace(line); var rest := t[IndexOf(t, ' ') + 1..]; var tok := SecondToken(line);
      && HasPrefix(rest, tok) && ' ' !in tok
      && (|tok| < |rest| ==> rest[|tok|] == ' ')
  {
    var t := TrimSpace(line);
    SplitSecond(t, ' ');
    SplitHead(t[IndexOf(t, ' ') + 1..], ' ');
  }

  /** A listing that is empty or all whitespace is one empty line, which has no second token. */
  lemma {:induction false} BlankListingIsMalformed(text: string)
    requires AllSpace(text)
    ensures Lines(text) == [""]
    ensures !NodesWellFormed(Lines(text))
  {
    TrimSpaceSlice(text);
    assert Lines(text)[0] == "";
  }
}
