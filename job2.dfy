/**
 * Job 2 (`Job2_MI`): the mapper that turns Job 1's `pathmargins` and `triples` lines into
 * records under the composite `PathSlotKey`, attaching the word margin to each triple, and
 * the reducer that reads the path-slot margin from the front of each group and scores the
 * group's triples.
 */
module Job2 {
  import opened Wrappers
  import opened Strings
  import opened SortKeys
  import opened Job1

  /** `Job2_MI.Map.map`: a `PS_MARGIN` line of at least four fields becomes a margin
      record carrying its count; a `TRIPLE` line of at least five fields becomes a triple
      record `word\tcount\twordMargin` when the word margin of `slot|word` is known, and is
      dropped otherwise; any other line is dropped. */
  function Shape(line: string, wordMargins: map<string, int>): Option<(PathSlotKey, string)> {
    var p := JavaSplit(line, '\t');
    if StartsWith(line, "PS_MARGIN") && |p| >= 4 then Some((PathSlotKey(p[1], p[2], MARGIN), p[3]))
    else if StartsWith(line, "TRIPLE") && |p| >= 5 then
      var wk := p[2] + "|" + p[3];
      if wk in wordMargins then
        Some((PathSlotKey(p[1], p[2], TRIPLE), p[3] + "\t" + p[4] + "\t" + IntToString(wordMargins[wk])))
      else None
    else None
  }

  /** The line a Job 1 reducer writes for a record key and its sum. */
  function OutputLine(key: string, sum: int): string {
    key + "\t" + IntToString(sum)
  }

  /** A Job 1 output line is all of its key's fields and the sum, tab-joined. */
  lemma OutputLineFields(kind: string, fields: seq<string>, sum: int)
    requires |fields| >= 1
    ensures OutputLine(Key(kind, fields), sum) == Join([kind] + fields + [IntToString(sum)], '\t')
  {
    var all := [kind] + fields;
    assert all[1..] == fields;
    assert Join(all, '\t') == Key(kind, fields);
    JoinSnoc(all, IntToString(sum), '\t');
  }

  /** A line that starts with a margin or triple kind keeps its fields apart. */
  lemma SplitOutput(fields: seq<string>, sum: int)
    requires |fields| >= 1
    requires forall i :: 0 <= i < |fields| ==> '\t' !in fields[i]
    ensures JavaSplit(Join(fields + [IntToString(sum)], '\t'), '\t') == fields + [IntToString(sum)]
  {
    var all := fields + [IntToString(sum)];
    IntToStringShape(sum, '\t');
    assert all[|all| - 1] == IntToString(sum);
    forall i | 0 <= i < |all| ensures '\t' !in all[i] {
      if i < |fields| {
        assert all[i] == fields[i];
      }
    }
    JavaSplitJoin(all, '\t');
  }

  lemma JoinStarts(fields: seq<string>, sep: char)
    requires |fields| >= 2
    ensures StartsWith(Join(fields, sep), fields[0])
  {
    assert Join(fields, sep)[..|fields[0]|] == fields[0];
  }

  /** A Job 1 `pathmargins` line `PS_MARGIN\tpath\tslot\tsum` becomes the margin record of
      `(path, slot)` carrying the printed sum. */
  lemma ShapeMargin(path: string, slot: string, sum: int, wordMargins: map<string, int>)
    requires '\t' !in path && '\t' !in slot
    ensures Shape(OutputLine(Key("PS_MARGIN", [path, slot]), sum), wordMargins)
      == Some((PathSlotKey(path, slot, MARGIN), IntToString(sum)))
  {
    var fields := ["PS_MARGIN", path, slot];
    OutputLineFields("PS_MARGIN", [path, slot], sum);
    assert [("PS_MARGIN")] + [path, slot] == fields;
    var line := Join(fields + [IntToString(sum)], '\t');
    SplitOutput(fields, sum);
    JoinStarts(fields + [IntToString(sum)], '\t');
  }

  /** A Job 1 `triples` line `TRIPLE\tpath\tslot\tword\tsum` becomes the triple record of
      `(path, slot)` carrying the word, the sum and the word's margin in that slot, exactly
      when that margin is known; otherwise it is dropped. */
  lemma ShapeTriple(path: string, slot: string, word: string, sum: int, wordMargins: map<string, int>)
    requires '\t' !in path && '\t' !in slot && '\t' !in word
    ensures var r := Shape(OutputLine(Key("TRIPLE", [path, slot, word]), sum), wordMargins);
      var wk := slot + "|" + word;
      && (wk in wordMargins ==>
            r == Some((PathSlotKey(path, slot, TRIPLE),
                       word + "\t" + IntToString(sum) + "\t" + IntToString(wordMargins[wk]))))
      && (wk !in wordMargins ==> r.None?)
  {
    var fields := ["TRIPLE", path, slot, word];
    OutputLineFields("TRIPLE", [path, slot, word], sum);
    assert [("TRIPLE")] + [path, slot, word] == fields;
    var line := Join(fields + [IntToString(sum)], '\t');
    SplitOutput(fields, sum);
    JoinStarts(fields + [IntToString(sum)], '\t');
    assert line[..6] == "TRIPLE";
    assert line[0] == 'T' && !StartsWith(line, "PS_MARGIN");
  }

  // ---------------------------------------------------------------------------
  // Reduce
  // ---------------------------------------------------------------------------

  /** One scored line `path -> slot\tword\tmi` of the reducer. */
  datatype MiLine = MiLine(path: string, slot: string, word: string, mi: real)

  /** What one triple value contributes: nothing (too few fields, or a score not above
      0.001), a scored line, or a number-format failure. */
  datatype Outcome = Skipped | Kept(line: MiLine) | Failed

  /** The loop body for one value, with `Double.parseDouble` as `parseDouble` and the
      logarithm `log(countTriple * N / (psCount * countWord))` as `score`. */
  function ScoreOf(key: PathSlotKey, value: string, psCount: int, n: int,
                   parseDouble: string -> Option<real>, score: (real, real, int, int) -> real): Outcome
  {
    var data := JavaSplit(value, '\t');
    if |data| < 3 then Skipped
    else match (parseDouble(data[1]), parseDouble(data[2]))
      case (Some(countTriple), Some(countWord)) =>
        var mi := score(countTriple, countWord, n, psCount);
        if mi > 0.001 then Kept(MiLine(key.path, key.slot, data[0], mi)) else Skipped
      case _ => Failed
  }

  /** The scored lines of a run of values, or `None` at the first failure. */
  function Scored(key: PathSlotKey, values: seq<string>, psCount: int, n: int,
                  parseDouble: string -> Option<real>, score: (real, real, int, int) -> real): Option<seq<MiLine>>
  {
    if values == [] then Some([])
    else
      match Scored(key, values[..|values| - 1], psCount, n, parseDouble, score)
      case None => None
      case Some(init) =>
        match ScoreOf(key, values[|values| - 1], psCount, n, parseDouble, score)
        case Skipped => Some(init)
        case Failed => None
        case Kept(l) => Some(init + [l])
  }

  /** The reducer's output for a group: the first value is the path-slot count, whatever
      it is; the remaining values are scored. `None` is a number-format failure. */
  function MiGroup(key: PathSlotKey, values: seq<string>, n: int,
                   parseDouble: string -> Option<real>, score: (real, real, int, int) -> real): Option<seq<MiLine>>
  {
    if values == [] then Some([])
    else
      match ParseLong(values[0])
      case None => None
      case Some(psCount) => Scored(key, values[1..], psCount, n, parseDouble, score)
  }

  lemma ScoredSnoc(key: PathSlotKey, values: seq<string>, i: int, psCount: int, n: int,
                   parseDouble: string -> Option<real>, score: (real, real, int, int) -> real)
    requires 0 <= i < |values|
    ensures Scored(key, values[..i + 1], psCount, n, parseDouble, score)
      == match Scored(key, values[..i], psCount, n, parseDouble, score)
         case None => None
         case Some(init) =>
           match ScoreOf(key, values[i], psCount, n, parseDouble, score)
           case Skipped => Some(init)
           case Failed => None
           case Kept(l) => Some(init + [l])
  {
    assert values[..i + 1][..i] == values[..i];
  }

  lemma {:induction false} ScoredNone(key: PathSlotKey, values: seq<string>, k: int, psCount: int, n: int,
                                      parseDouble: string -> Option<real>, score: (real, real, int, int) -> real)
    requires 0 <= k <= |values| && Scored(key, values[..k], psCount, n, parseDouble, score).None?
    ensures Scored(key, values, psCount, n, parseDouble, score).None?
    decreases |values| - k
  {
    if k < |values| {
      ScoredSnoc(key, values, k, psCount, n, parseDouble, score);
      ScoredNone(key, values, k + 1, psCount, n, parseDouble, score);
    } else {
      assert values[..k] == values;
    }
  }

  /** The statements of the loop body: split, skip short values, parse, score, filter. */
  method ScoreValue(key: PathSlotKey, value: string, psCount: int, n: int,
                    parseDouble: string -> Option<real>, score: (real, real, int, int) -> real)
    returns (o: Outcome)
    ensures o == ScoreOf(key, value, psCount, n, parseDouble, score)
  {
    var data := JavaSplit(value, '\t');
    if |data| < 3 {
      return Skipped;
    }
    var countTriple := parseDouble(data[1]);
    var countWord := parseDouble(data[2]);
    if countTriple.None? || countWord.None? {
      return Failed;
    }
    var mi := score(countTriple.value, countWord.value, n, psCount);
    if mi > 0.001 {
      o := Kept(MiLine(key.path, key.slot, data[0], mi));
    } else {
      o := Skipped;
    }
  }

  /** `Job2_MI.Reduce.reduce`: the first value of the group is parsed as the path-slot
      count, then every later value is scored and kept when its score exceeds 0.001. */
  method MiReduce(key: PathSlotKey, values: seq<string>, n: int,
                  parseDouble: string -> Option<real>, score: (real, real, int, int) -> real)
    returns (out: Option<seq<MiLine>>)
    ensures out == MiGroup(key, values, n, parseDouble, score)
  {
    if values == [] {
      return Some([]);
    }
    var ps := ParseLong(values[0]);
    if ps.None? {
      return None;
    }
    var psCount := ps.value;
    var rest := values[1..];
    var lines: seq<MiLine> := [];
    for i := 0 to |rest|
      invariant Scored(key, rest[..i], psCount, n, parseDouble, score) == Some(lines)
    {
      ScoredSnoc(key, rest, i, psCount, n, parseDouble, score);
      var o := ScoreValue(key, rest[i], psCount, n, parseDouble, score);
      if o.Failed? {
        ScoredNone(key, rest, i + 1, psCount, n, parseDouble, score);
        return None;
      } else if o.Kept? {
        lines := lines + [o.line];
      }
    }
    assert rest[..|rest|] == rest;
    out := Some(lines);
  }

  /** Every line the reducer writes names the group's path and slot and has a score above
      0.001, and there is at most one per triple value. */
  lemma {:induction false} ScoredLines(key: PathSlotKey, values: seq<string>, psCount: int, n: int,
                                       parseDouble: string -> Option<real>, score: (real, real, int, int) -> real)
    requires Scored(key, values, psCount, n, parseDouble, score).Some?
    ensures var ls := Scored(key, values, psCount, n, parseDouble, score).value;
      |ls| <= |values|
      && forall j :: 0 <= j < |ls| ==> ls[j].path == key.path && ls[j].slot == key.slot && ls[j].mi > 0.001
  {
    if values != [] {
      var m := |values| - 1;
      ScoredLines(key, values[..m], psCount, n, parseDouble, score);
    }
  }

  /** A group whose first value is not the margin count, such as a triple value
      `word\tcount\twordMargin`, fails: the reducer relies on the secondary sort to put the
      margin record first and does not check it. */
  lemma TripleFirstFails(key: PathSlotKey, values: seq<string>, n: int,
                         parseDouble: string -> Option<real>, score: (real, real, int, int) -> real)
    requires |values| >= 1 && '\t' in values[0]
    ensures MiGroup(key, values, n, parseDouble, score).None?
  {
    var k :| 0 <= k < |values[0]| && values[0][k] == '\t';
    ParseRejectsNonDigit(values[0], -TWO_63, TWO_63 - 1, k);
  }

  /** With the margin count first, the group is scored against that count. */
  lemma MarginFirst(key: PathSlotKey, psCount: int, triples: seq<string>, n: int,
                    parseDouble: string -> Option<real>, score: (real, real, int, int) -> real)
    requires IsLong(psCount)
    ensures MiGroup(key, [IntToString(psCount)] + triples, n, parseDouble, score)
      == Scored(key, triples, psCount, n, parseDouble, score)
  {
    ParseLongToString(psCount);
    assert ([IntToString(psCount)] + triples)[1..] == triples;
  }
}
