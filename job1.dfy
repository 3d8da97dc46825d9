/**
 * Job 1 (`Job1_Extraction`): the mapper that turns one n-gram line into keyed count
 * records, the combiner and reducer that sum them as Java `long`s, and the routing of each
 * sum to a named output by key prefix; also the `readTotalN` fold over the `global` output.
 */
module Job1 {
  import opened Wrappers
  import opened Strings
  import opened Tokens
  import opened TokenParser
  import opened DepGraph
  import opened PathRender
  import opened Extraction

  /** One `(Text, LongWritable)` pair written by the mapper or combiner. */
  datatype Record = Record(key: string, value: int)

  /** The count column: `Long.parseLong`, or 1 when it does not parse. */
  function CountOf(field: string): int {
    match ParseLong(field)
    case Some(n) => n
    case None => 1
  }

  /** A printed `long` is read back as itself. */
  lemma CountOfPrinted(n: int)
    requires IsLong(n)
    ensures CountOf(IntToString(n)) == n
  {
    ParseLongToString(n);
  }

  /** A count column holding anything but a sign or a digit defaults to 1. */
  lemma CountOfDefault(field: string, k: int)
    requires 0 <= k < |field| && !IsDigit(field[k]) && field[k] != '-' && field[k] != '+'
    ensures CountOf(field) == 1
  {
    ParseRejectsNonDigit(field, -TWO_63, TWO_63 - 1, k);
  }

  /** A record key: its kind, then its fields, all separated by tabs. */
  function Key(kind: string, fields: seq<string>): string {
    if fields == [] then kind else kind + "\t" + Join(fields, '\t')
  }

  /** The seven records of one extraction line `path\tx\ty`, or none when the line has
      fewer than three tab-separated fields. */
  function Emit(ex: string, count: int): seq<Record> {
    var f := SplitAny(ex, {'\t'});
    if |f| < 3 then [] else EmitFields(f[0], f[1], f[2], count)
  }

  /** The seven records of the path `p` and the nouns `x` and `y`. */
  function EmitFields(p: string, x: string, y: string, count: int): seq<Record> {
    [ Record(Key("TRIPLE", [p, "X", x]), count),
      Record(Key("TRIPLE", [p, "Y", y]), count),
      Record(Key("SW_MARGIN", ["X", x]), count),
      Record(Key("SW_MARGIN", ["Y", y]), count),
      Record(Key("PS_MARGIN", [p, "X"]), count),
      Record(Key("PS_MARGIN", [p, "Y"]), count),
      Record(Key("GLOBAL", []), Wrap64(count * 2)) ]
  }

  /** The records of a list of extraction lines, in order. */
  function EmitAll(exs: seq<string>, count: int): seq<Record> {
    if exs == [] then [] else EmitAll(exs[..|exs| - 1], count) + Emit(exs[|exs| - 1], count)
  }

  /** No word and no dependency label holds a tab. */
  predicate TabFree(toks: seq<Token>) {
    forall i :: 0 <= i < |toks| ==> '\t' !in toks[i].word && '\t' !in toks[i].dep
  }

  /** Tokens parsed from a tab-free text carry no tab. */
  lemma ParsedTabFree(text: string)
    requires '\t' !in text
    ensures TabFree(ParseAll(Tokenize(text)))
  {
    var pieces := Tokenize(text);
    var toks := ParseAll(pieces);
    SplitAnyAvoids(text, {' '}, '\t');
    FilterMapKeepsOrder(pieces, ParseToken);
    var K := KeptIndices(pieces, ParseToken);
    forall i | 0 <= i < |toks| ensures '\t' !in toks[i].word && '\t' !in toks[i].dep {
      var t := pieces[K[i]];
      assert ParseToken(t) == Some(toks[i]);
      assert '\t' !in t;
      ParseTokenSound(t);
      var h :| Shaped(t, toks[i], h);
      assert t == toks[i].word + "/" + toks[i].pos + "/" + toks[i].dep + "/" + h;
    }
  }

  /** An extraction line over tab-free tokens splits into exactly its three parts. */
  lemma LineFields(toks: seq<Token>, path: seq<int>, src: int, dst: int)
    requires OnPath(toks, path) && |path| >= 1 && 0 <= src < |toks| && 0 <= dst < |toks|
    requires TabFree(toks)
    ensures SplitAny(Line(toks, path, src, dst), {'\t'})
      == [Render(toks, path), Stem(toks[src].word), Stem(toks[dst].word)]
  {
    var r, x, y := Render(toks, path), Stem(toks[src].word), Stem(toks[dst].word);
    RenderAvoids(toks, path, '\t');
    StemAvoids(toks[src].word, '\t');
    StemAvoids(toks[dst].word, '\t');
    assert Line(toks, path, src, dst) == r + ['\t'] + (x + ['\t'] + y);
    SplitFieldThen(r, '\t', x + ['\t'] + y);
    SplitFieldThen(x, '\t', y);
    SplitField(y, '\t');
  }

  /** Every accepted extraction over tab-free tokens yields its seven records, keyed by
      the rendered path and the stems of its two nouns. */
  lemma EmitAccepted(toks: seq<Token>, pair: (int, int), path: seq<int>, line: string, count: int)
    requires Accepted(toks, pair, path, line) && TabFree(toks)
    ensures var p, x, y := Render(toks, path), Stem(toks[pair.0].word), Stem(toks[pair.1].word);
      Emit(line, count) ==
      [ Record(Key("TRIPLE", [p, "X", x]), count),
        Record(Key("TRIPLE", [p, "Y", y]), count),
        Record(Key("SW_MARGIN", ["X", x]), count),
        Record(Key("SW_MARGIN", ["Y", y]), count),
        Record(Key("PS_MARGIN", [p, "X"]), count),
        Record(Key("PS_MARGIN", [p, "Y"]), count),
        Record(Key("GLOBAL", []), Wrap64(count * 2)) ]
  {
    ShortestOnPath(toks, pair.0, pair.1, path);
    LineFields(toks, path, pair.0, pair.1);
  }

  /** An accepted extraction emits seven records. */
  lemma AcceptedSeven(toks: seq<Token>, pair: (int, int), path: seq<int>, line: string, count: int)
    requires Accepted(toks, pair, path, line) && TabFree(toks)
    ensures |Emit(line, count)| == 7
  {
    ShortestOnPath(toks, pair.0, pair.1, path);
    LineFields(toks, path, pair.0, pair.1);
  }

  /** Every accepted extraction emits exactly seven records. */
  lemma {:induction false} EmitAllSeven(toks: seq<Token>, pairs: seq<(int, int)>, paths: seq<seq<int>>,
                                        exs: seq<string>, count: int)
    requires AllAccepted(toks, pairs, paths, exs) && TabFree(toks)
    ensures |EmitAll(exs, count)| == 7 * |exs|
  {
    if exs != [] {
      var n := |exs| - 1;
      assert Accepted(toks, pairs[n], paths[n], exs[n]);
      AcceptedSeven(toks, pairs[n], paths[n], exs[n], count);
      assert AllAccepted(toks, pairs[..n], paths[..n], exs[..n]) by {
        forall k | 0 <= k < n
          ensures Accepted(toks, pairs[..n][k], paths[..n][k], exs[..n][k])
        {
          assert Accepted(toks, pairs[k], paths[k], exs[k]);
        }
      }
      EmitAllSeven(toks, pairs[..n], paths[..n], exs[..n], count);
    }
  }

  /** `Job1_Extraction.Map.map` on one input line `ngram\ttext\tcount...`: nothing for fewer
      than three fields or no parsed token; otherwise the records of every extraction, the
      ghost outputs naming the tokens, the noun pairs and the shortest paths behind them. */
  method MapLine(line: string)
    returns (records: seq<Record>, ghost toks: seq<Token>, ghost pairs: seq<(int, int)>,
             ghost paths: seq<seq<int>>, ghost exs: seq<string>)
    ensures var parts := JavaSplit(line, '\t');
      |parts| < 3 ==> records == []
    ensures var parts := JavaSplit(line, '\t');
      |parts| >= 3 ==>
        && toks == ParseAll(Tokenize(parts[1]))
        && (toks == [] ==> records == [])
        && (toks != [] ==>
              && AllAccepted(toks, pairs, paths, exs)
              && LexSorted(pairs)
              && (var nouns := NounIndices(toks);
                  forall a, b :: 0 <= a < b < |nouns| ==> Covered(toks, nouns[a], nouns[b], pairs))
              && records == EmitAll(exs, CountOf(parts[2]))
              && |records| == 7 * |exs|)
  {
    var parts := JavaSplit(line, '\t');
    records, toks, pairs, paths, exs := [], [], [], [], [];
    if |parts| < 3 {
      return;
    }
    var count := CountOf(parts[2]);
    var parsed := Parse(parts[1]);
    toks := parsed;
    if parsed == [] {
      return;
    }
    JavaSplitAvoids(line, '\t');
    ParsedTabFree(parts[1]);
    var results;
    results, pairs, paths := ExtractPaths(parsed);
    exs := results;
    for i := 0 to |results|
      invariant records == EmitAll(results[..i], count)
    {
      var f := SplitAny(results[i], {'\t'});
      if |f| >= 3 {
        records := records + Emit(results[i], count);
      } else {
        assert Emit(results[i], count) == [];
        assert records == records + Emit(results[i], count);
      }
      assert results[..i + 1][..i] == results[..i];
    }
    assert results[..|results|] == results;
    EmitAllSeven(toks, pairs, paths, exs, count);
  }

  // ---------------------------------------------------------------------------
  // Combine and Reduce
  // ---------------------------------------------------------------------------

  /** The `long sum` loop shared by `Combine.reduce` and `Reduce.reduce`. */
  method SumValues(values: seq<int>) returns (sum: int)
    ensures sum == Wrap64(SumOf(values))
  {
    sum := 0;
    for i := 0 to |values|
      invariant sum == Wrap64(SumOf(values[..i]))
    {
      assert values[..i + 1] == values[..i] + [values[i]];
      WrapStep(values[..i], values[i]);
      sum := Wrap64(sum + values[i]);
    }
    assert values[..|values|] == values;
  }

  /** `Combine.reduce`: one record holding the wrapped sum of the key's values. */
  method Combine(key: string, values: seq<int>) returns (r: Record)
    ensures r.key == key && r.value == Wrap64(SumOf(values))
  {
    var sum := SumValues(values);
    r := Record(key, sum);
  }

  /** The named output a key is written to, by its prefix; `None` drops the key. */
  function Route(key: string): Option<string> {
    if StartsWith(key, "TRIPLE") then Some("triples")
    else if StartsWith(key, "PS_MARGIN") then Some("pathmargins")
    else if StartsWith(key, "SW_MARGIN") then Some("wordmargins")
    else if StartsWith(key, "GLOBAL") then Some("global")
    else None
  }

  /** A line of a named output: the key and the wrapped sum. */
  datatype Output = Output(name: string, key: string, value: int)

  /** `Reduce.reduce`: sums the key's values and writes them to the output its prefix
      selects, or nowhere. */
  method Reduce(key: string, values: seq<int>) returns (out: Option<Output>)
    ensures out.Some? <==> Route(key).Some?
    ensures out.Some? ==> out.value == Output(Route(key).value, key, Wrap64(SumOf(values)))
  {
    var sum := SumValues(values);
    var name := Route(key);
    if name.Some? {
      out := Some(Output(name.value, key, sum));
    } else {
      out := None;
    }
  }

  /** The output each record kind is meant for. */
  function Sink(kind: string): string {
    match kind
    case "TRIPLE" => "triples"
    case "PS_MARGIN" => "pathmargins"
    case "SW_MARGIN" => "wordmargins"
    case _ => "global"
  }

  lemma RoutesTriples(rest: string)
    ensures Route("TRIPLE" + rest) == Some("triples")
  {
    assert ("TRIPLE" + rest)[..6] == "TRIPLE";
  }

  lemma RoutesMargins(kind: string, rest: string)
    requires kind == "PS_MARGIN" || kind == "SW_MARGIN"
    ensures Route(kind + rest) == Some(Sink(kind))
  {
    var k := kind + rest;
    assert k[0] == kind[0];
    assert k[..9] == kind;
  }

  lemma RoutesGlobal(rest: string)
    ensures Route("GLOBAL" + rest) == Some("global")
  {
    var k := "GLOBAL" + rest;
    assert k[0] == 'G';
    assert k[..6] == "GLOBAL";
  }

  /** A string starting with one of the four kind names is routed to that kind's output. */
  lemma RoutesByPrefix(kind: string, rest: string)
    requires kind == "TRIPLE" || kind == "PS_MARGIN" || kind == "SW_MARGIN" || kind == "GLOBAL"
    ensures Route(kind + rest) == Some(Sink(kind))
  {
    if kind == "TRIPLE" {
      RoutesTriples(rest);
    } else if kind == "PS_MARGIN" || kind == "SW_MARGIN" {
      RoutesMargins(kind, rest);
    } else {
      RoutesGlobal(rest);
    }
  }

  /** A key of each of the four kinds is routed to that kind's output, whatever its fields. */
  lemma RoutesByKind(kind: string, fields: seq<string>)
    requires kind == "TRIPLE" || kind == "PS_MARGIN" || kind == "SW_MARGIN" || kind == "GLOBAL"
    ensures Route(Key(kind, fields)) == Some(Sink(kind))
  {
    if fields == [] {
      RoutesByPrefix(kind, "");
      assert kind + "" == kind;
    } else {
      var rest := "\t" + Join(fields, '\t');
      assert Key(kind, fields) == kind + rest;
      RoutesByPrefix(kind, rest);
    }
  }

  /** The seven records of an extraction go, in order, to the outputs triples, triples,
      wordmargins, wordmargins, pathmargins, pathmargins and global. */
  lemma RouteEmitted(ex: string, count: int)
    requires |SplitAny(ex, {'\t'})| >= 3
    ensures var r := Emit(ex, count);
      |r| == 7
      && Route(r[0].key) == Some("triples") && Route(r[1].key) == Some("triples")
      && Route(r[2].key) == Some("wordmargins") && Route(r[3].key) == Some("wordmargins")
      && Route(r[4].key) == Some("pathmargins") && Route(r[5].key) == Some("pathmargins")
      && Route(r[6].key) == Some("global")
  {
    var f := SplitAny(ex, {'\t'});
    RouteFields(f[0], f[1], f[2], count);
  }

  lemma RouteFields(p: string, x: string, y: string, count: int)
    ensures var r := EmitFields(p, x, y, count);
      && Route(r[0].key) == Some("triples") && Route(r[1].key) == Some("triples")
      && Route(r[2].key) == Some("wordmargins") && Route(r[3].key) == Some("wordmargins")
      && Route(r[4].key) == Some("pathmargins") && Route(r[5].key) == Some("pathmargins")
      && Route(r[6].key) == Some("global")
  {
    var r := EmitFields(p, x, y, count);
    RouteRecord(r[0], "TRIPLE", [p, "X", x]);
    RouteRecord(r[1], "TRIPLE", [p, "Y", y]);
    RouteRecord(r[2], "SW_MARGIN", ["X", x]);
    RouteRecord(r[3], "SW_MARGIN", ["Y", y]);
    RouteRecord(r[4], "PS_MARGIN", [p, "X"]);
    RouteRecord(r[5], "PS_MARGIN", [p, "Y"]);
    RouteRecord(r[6], "GLOBAL", []);
  }

  lemma RouteRecord(rec: Record, kind: string, fields: seq<string>)
    requires kind == "TRIPLE" || kind == "PS_MARGIN" || kind == "SW_MARGIN" || kind == "GLOBAL"
    requires rec.key == Key(kind, fields)
    ensures Route(rec.key) == Some(Sink(kind))
  {
    RoutesByKind(kind, fields);
  }

  /** The wrapped sum of every chunk, as the combiner writes them. */
  function Partials(chunks: seq<seq<int>>): (r: seq<int>)
    ensures |r| == |chunks|
  {
    if chunks == [] then [] else Partials(chunks[..|chunks| - 1]) + [Wrap64(SumOf(chunks[|chunks| - 1]))]
  }

  function Flatten(chunks: seq<seq<int>>): seq<int> {
    if chunks == [] then [] else Flatten(chunks[..|chunks| - 1]) + chunks[|chunks| - 1]
  }

  /** Running the combiner on any split of a key's values into consecutive chunks does not
      change what the reducer sums to, overflow included. */
  lemma {:induction false} CombinerTransparent(chunks: seq<seq<int>>)
    ensures Wrap64(SumOf(Partials(chunks))) == Wrap64(SumOf(Flatten(chunks)))
  {
    if chunks != [] {
      var n := |chunks| - 1;
      var init, last := chunks[..n], chunks[n];
      CombinerTransparent(init);
      var a, f, b := SumOf(Partials(init)), SumOf(Flatten(init)), SumOf(last);
      assert Partials(chunks)[..n] == Partials(init);
      SumOfAppend(Flatten(init), last);
      calc {
        Wrap64(SumOf(Partials(chunks)));
        Wrap64(a + Wrap64(b));
        { WrapPartial(a, f, b); }
        Wrap64(f + b);
        Wrap64(SumOf(Flatten(chunks)));
      }
    }
  }

  // ---------------------------------------------------------------------------
  // readTotalN
  // ---------------------------------------------------------------------------

  /** What one line contributes to the fold: nothing when it has fewer than two fields,
      its second column, or a parse failure. */
  datatype Column = Skip | Value(v: int) | Bad

  function ColumnOf(line: string): (c: Column)
    ensures c.Value? ==> IsLong(c.v)
  {
    var parts := JavaSplit(line, '\t');
    if |parts| < 2 then Skip
    else match ParseLong(parts[1])
      case None => Bad
      case Some(v) => Value(v)
  }

  /** The loop body's reading of one line. */
  method ReadColumn(line: string) returns (c: Column)
    ensures c == ColumnOf(line)
  {
    var parts := JavaSplit(line, '\t');
    if |parts| < 2 {
      return Skip;
    }
    var v := ParseLong(parts[1]);
    c := if v.None? then Bad else Value(v.value);
  }

  /** The fold's accumulator after one more line. */
  function Then(acc: Option<seq<int>>, c: Column): Option<seq<int>> {
    match acc
    case None => None
    case Some(init) =>
      match c
      case Skip => Some(init)
      case Bad => None
      case Value(v) => Some(init + [v])
  }

  /** The second column of every line with at least two fields, or `None` when one of
      them does not parse as a `long` (the `NumberFormatException` that ends the run). */
  function Counts(lines: seq<string>): Option<seq<int>> {
    if lines == [] then Some([]) else Then(Counts(lines[..|lines| - 1]), ColumnOf(lines[|lines| - 1]))
  }

  lemma CountsSnoc(lines: seq<string>, i: int)
    requires 0 <= i < |lines|
    ensures Counts(lines[..i + 1]) == Then(Counts(lines[..i]), ColumnOf(lines[i]))
  {
    assert lines[..i + 1][..i] == lines[..i];
  }

  /** The fold of `readTotalN` over the lines of the `global` files: the wrapped sum of the
      second columns, replaced by 1 when it is 0; `None` when a column does not parse. */
  method TotalN(lines: seq<string>) returns (n: Option<int>)
    ensures n.None? <==> Counts(lines).None?
    ensures n.Some? ==> n.value != 0 && IsLong(n.value)
    ensures n.Some? ==> var s := Wrap64(SumOf(Counts(lines).value));
      n.value == if s == 0 then 1 else s
  {
    var sum := 0;
    ghost var vals: seq<int> := [];
    for i := 0 to |lines|
      invariant Counts(lines[..i]) == Some(vals)
      invariant sum == Wrap64(SumOf(vals))
    {
      CountsSnoc(lines, i);
      var c := ReadColumn(lines[i]);
      if c.Bad? {
        CountsNone(lines, i + 1);
        return None;
      } else if c.Value? {
        assert Counts(lines[..i + 1]) == Some(vals + [c.v]);
        WrapStep(vals, c.v);
        sum := Wrap64(sum + c.v);
        vals := vals + [c.v];
      } else {
        assert Counts(lines[..i + 1]) == Some(vals);
      }
    }
    assert lines[..|lines|] == lines;
    n := Some(if sum == 0 then 1 else sum);
  }

  /** Once a prefix fails to parse, the whole input does. */
  lemma {:induction false} CountsNone(lines: seq<string>, k: int)
    requires 0 <= k <= |lines| && Counts(lines[..k]).None?
    ensures Counts(lines).None?
    decreases |lines| - k
  {
    if k < |lines| {
      CountsSnoc(lines, k);
      CountsNone(lines, k + 1);
    } else {
      assert lines[..k] == lines;
    }
  }

  /** A `global` output line `GLOBAL\tsum` contributes its sum. */
  lemma GlobalColumn(v: int)
    requires IsLong(v)
    ensures ColumnOf("GLOBAL\t" + IntToString(v)) == Value(v)
  {
    IntToStringShape(v, '\t');
    var fields := ["GLOBAL", IntToString(v)];
    assert "GLOBAL\t" + IntToString(v) == Join(fields, '\t');
    JavaSplitJoin(fields, '\t');
    ParseLongToString(v);
  }

  function GlobalLines(sums: seq<int>): (r: seq<string>)
    ensures |r| == |sums|
    ensures forall i :: 0 <= i < |sums| ==> r[i] == "GLOBAL\t" + IntToString(sums[i])
  {
    seq(|sums|, i requires 0 <= i < |sums| => "GLOBAL\t" + IntToString(sums[i]))
  }

  /** Lines whose columns all hold values fold to exactly those values. */
  lemma {:induction false} CountsOfValues(lines: seq<string>, sums: seq<int>)
    requires |lines| == |sums|
    requires forall i :: 0 <= i < |lines| ==> ColumnOf(lines[i]) == Value(sums[i])
    ensures Counts(lines) == Some(sums)
  {
    if lines != [] {
      var n := |lines| - 1;
      CountsOfValues(lines[..n], sums[..n]);
      assert ColumnOf(lines[n]) == Value(sums[n]);
      FrontLast(sums);
    }
  }

  /** The `global` output Job 1 writes, one `GLOBAL\tsum` line per reducer, folds to
      exactly those sums, so `readTotalN` returns their wrapped total, or 1 for 0. */
  lemma CountsOfGlobal(sums: seq<int>)
    requires forall i :: 0 <= i < |sums| ==> IsLong(sums[i])
    ensures Counts(GlobalLines(sums)) == Some(sums)
  {
    var lines := GlobalLines(sums);
    forall i | 0 <= i < |lines| ensures ColumnOf(lines[i]) == Value(sums[i]) {
      GlobalColumn(sums[i]);
    }
    CountsOfValues(lines, sums);
  }
}
