/**
 * Job 3 (`Job3_Overlap`): the mapper holds the test set as a symmetric adjacency map from
 * each path to the paths it is paired with, and sends every feature of a test path to the
 * canonical `(min, max)` key of each of its pairs; the reducer collects the two sides'
 * features and sums the scores of the features both sides share, per slot.
 */
module Job3 {
  import opened Wrappers
  import opened Strings

  // ---------------------------------------------------------------------------
  // The test-set adjacency
  // ---------------------------------------------------------------------------

  /** The list stored under `k`, empty when there is none. */
  function Neighbours(m: map<string, seq<string>>, k: string): seq<string> {
    if k in m then m[k] else []
  }

  /** `computeIfAbsent(k, ...).add(v)`. */
  function Append(m: map<string, seq<string>>, k: string, v: string): map<string, seq<string>> {
    m[k := Neighbours(m, k) + [v]]
  }

  /** The two columns of a test-set line, when it has at least two. */
  function TestPair(line: string): Option<(string, string)> {
    var p := JavaSplit(line, '\t');
    if |p| >= 2 then Some((p[0], p[1])) else None
  }

  /** One line of `loadTestSet`: both directions of its pair are appended. */
  function Load(m: map<string, seq<string>>, line: string): map<string, seq<string>> {
    match TestPair(line)
    case None => m
    case Some((a, b)) => Append(Append(m, a, b), b, a)
  }

  function Loaded(m: map<string, seq<string>>, lines: seq<string>): map<string, seq<string>> {
    if lines == [] then m else Load(Loaded(m, lines[..|lines| - 1]), lines[|lines| - 1])
  }

  /** How often `b` is listed under `a`. */
  function Count(m: map<string, seq<string>>, a: string, b: string): nat {
    multiset(Neighbours(m, a))[b]
  }

  /** Every path lists each other path as often as that one lists it. */
  ghost predicate Symmetric(m: map<string, seq<string>>) {
    forall a, b :: Count(m, a, b) == Count(m, b, a)
  }

  lemma AppendCount(m: map<string, seq<string>>, k: string, v: string, a: string, b: string)
    ensures Count(Append(m, k, v), a, b) == Count(m, a, b) + (if a == k && b == v then 1 else 0)
  {
    if a == k {
      assert Neighbours(Append(m, k, v), a) == Neighbours(m, a) + [v];
    }
  }

  /** Loading a line keeps the adjacency symmetric. */
  lemma LoadSymmetric(m: map<string, seq<string>>, line: string)
    requires Symmetric(m)
    ensures Symmetric(Load(m, line))
  {
    if TestPair(line).Some? {
      var (a, b) := TestPair(line).value;
      var m1 := Append(m, a, b);
      forall x, y ensures Count(Load(m, line), x, y) == Count(Load(m, line), y, x) {
        AppendCount(m, a, b, x, y);
        AppendCount(m, a, b, y, x);
        AppendCount(m1, b, a, x, y);
        AppendCount(m1, b, a, y, x);
      }
    }
  }

  /** Loading a line only appends to the lists. */
  lemma LoadExtends(m: map<string, seq<string>>, line: string, k: string)
    ensures Neighbours(m, k) <= Neighbours(Load(m, line), k)
  {
  }

  lemma LoadedSnoc(m: map<string, seq<string>>, lines: seq<string>, i: int)
    requires 0 <= i < |lines|
    ensures Loaded(m, lines[..i + 1]) == Load(Loaded(m, lines[..i]), lines[i])
  {
    assert lines[..i + 1][..i] == lines[..i];
  }

  /** Every test-set line with two columns `a\tb` lists `b` under `a` and `a` under `b`. */
  lemma {:induction false} LoadedHasPair(m: map<string, seq<string>>, lines: seq<string>, i: int)
    requires 0 <= i < |lines| && TestPair(lines[i]).Some?
    ensures var (a, b) := TestPair(lines[i]).value;
      var n := Loaded(m, lines);
      b in Neighbours(n, a) && a in Neighbours(n, b)
  {
    var (a, b) := TestPair(lines[i]).value;
    var last := |lines| - 1;
    var before := Loaded(m, lines[..last]);
    if i == last {
      var m1 := Append(before, a, b);
      assert b in Neighbours(m1, a);
      assert Neighbours(m1, a) <= Neighbours(Append(m1, b, a), a);
    } else {
      assert lines[..last][i] == lines[i];
      LoadedHasPair(m, lines[..last], i);
      LoadExtends(before, lines[last], a);
      LoadExtends(before, lines[last], b);
    }
  }

  /** `(min, max)` of two paths in `String.compareTo` order, tab-joined. */
  function PairKey(a: string, b: string): string {
    if Compare(a, b) <= 0 then a + "\t" + b else b + "\t" + a
  }

  /** The pair key does not depend on which side emits it. */
  lemma PairKeySymmetric(a: string, b: string)
    ensures PairKey(a, b) == PairKey(b, a)
  {
    CompareZeroIff(a, b);
    CompareAntisymmetric(a, b);
  }

  /** The reducer splits a pair key of two tab-free, non-empty paths back into the two
      paths, the smaller first. */
  lemma PairKeySplits(a: string, b: string)
    requires '\t' !in a && '\t' !in b && a != "" && b != ""
    ensures var f := JavaSplit(PairKey(a, b), '\t');
      |f| == 2 && Compare(f[0], f[1]) <= 0
      && ((f[0] == a && f[1] == b) || (f[0] == b && f[1] == a))
  {
    CompareAntisymmetric(a, b);
    var lo, hi := if Compare(a, b) <= 0 then a else b, if Compare(a, b) <= 0 then b else a;
    assert PairKey(a, b) == Join([lo, hi], '\t');
    JavaSplitJoin([lo, hi], '\t');
  }

  /** The mapper of `Job3_Overlap`, holding the test-set adjacency. */
  class OverlapMapper {
    var neighbors: map<string, seq<string>>

    ghost predicate Valid()
      reads this
    {
      Symmetric(neighbors)
    }

    constructor ()
      ensures neighbors == map[] && Valid()
    {
      neighbors := map[];
    }

    /** `loadTestSet`: appends both directions of every line's pair. */
    method LoadTestSet(lines: seq<string>)
      requires Valid()
      modifies this
      ensures neighbors == Loaded(old(neighbors), lines)
      ensures Valid()
    {
      for i := 0 to |lines|
        invariant neighbors == Loaded(old(neighbors), lines[..i])
        invariant Valid()
      {
        LoadedSnoc(old(neighbors), lines, i);
        LoadSymmetric(neighbors, lines[i]);
        var p := JavaSplit(lines[i], '\t');
        if |p| >= 2 {
          neighbors := neighbors[p[0] := Neighbours(neighbors, p[0]) + [p[1]]];
          neighbors := neighbors[p[1] := Neighbours(neighbors, p[1]) + [p[0]]];
        }
      }
      assert lines[..|lines|] == lines;
    }

    /** `map`: a Job 2 line `path\tslot\tword\tmi` of a test path is sent, unchanged, to
        the pair key of each of the path's test pairs, in list order; lines of fewer than
        four fields or of other paths produce nothing. */
    method Map(line: string) returns (out: seq<(string, string)>)
      ensures var parts := JavaSplit(line, '\t');
        |parts| < 4 || parts[0] !in neighbors ==> out == []
      ensures var parts := JavaSplit(line, '\t');
        |parts| >= 4 && parts[0] in neighbors ==>
          var others := neighbors[parts[0]];
          |out| == |others|
          && forall j :: 0 <= j < |out| ==>
               out[j] == (PairKey(parts[0], others[j]),
                          parts[0] + "\t" + (parts[1] + "\t" + parts[2] + "\t" + parts[3]))
    {
      var parts := JavaSplit(line, '\t');
      out := [];
      if |parts| < 4 {
        return;
      }
      var path := parts[0];
      if path in neighbors {
        var featureVal := parts[1] + "\t" + parts[2] + "\t" + parts[3];
        var others := neighbors[path];
        for j := 0 to |others|
          invariant |out| == j
          invariant forall k :: 0 <= k < j ==> out[k] == (PairKey(path, others[k]), path + "\t" + featureVal)
        {
          var other := others[j];
          var p1 := if Compare(path, other) <= 0 then path else other;
          var p2 := if Compare(path, other) <= 0 then other else path;
          out := out + [(p1 + "\t" + p2, path + "\t" + featureVal)];
        }
      }
    }
  }

  /** In a symmetric adjacency, when `b` is listed under `a` then `a` is listed under `b`,
      so the lines of both paths reach the reducer under one and the same key. */
  lemma BothSidesMeet(m: map<string, seq<string>>, a: string, b: string)
    requires Symmetric(m) && b in Neighbours(m, a)
    ensures a in Neighbours(m, b) && PairKey(a, b) == PairKey(b, a)
  {
    assert Count(m, a, b) == Count(m, b, a);
    PairKeySymmetric(a, b);
  }

  // ---------------------------------------------------------------------------
  // Reduce
  // ---------------------------------------------------------------------------

  /** Which slot test decides the side of a feature `slot:word`: `AsWritten` is the
      source's `endsWith(":X")` / `endsWith(":Y")`, `Intended` tests the slot itself. */
  datatype Classifier = AsWritten | Intended

  const X_SIDE: int := 0
  const Y_SIDE: int := 1
  const NO_SIDE: int := 2

  function SideOf(c: Classifier, feat: string): int {
    match c
    case AsWritten =>
      if EndsWith(feat, ":X") then X_SIDE else if EndsWith(feat, ":Y") then Y_SIDE else NO_SIDE
    case Intended =>
      if StartsWith(feat, "X:") then X_SIDE else if StartsWith(feat, "Y:") then Y_SIDE else NO_SIDE
  }

  /** One reducer value `path\tslot\tword\tmi`, with its feature `slot:word`. */
  datatype Rec = Rec(path: string, feature: string, mi: real)

  /** Reading one value; `None` is the exception a short value or a bad number raises. */
  function RecOf(value: string, parseDouble: string -> Option<real>): Option<Rec> {
    var parts := JavaSplit(value, '\t');
    if |parts| < 4 then None
    else match parseDouble(parts[3])
      case None => None
      case Some(mi) => Some(Rec(parts[0], parts[1] + ":" + parts[2], mi))
  }

  function Recs(values: seq<string>, parseDouble: string -> Option<real>): Option<seq<Rec>> {
    if values == [] then Some([])
    else
      match Recs(values[..|values| - 1], parseDouble)
      case None => None
      case Some(init) =>
        match RecOf(values[|values| - 1], parseDouble)
        case None => None
        case Some(r) => Some(init + [r])
  }

  /** The feature maps `v1` and `v2` of the two key paths: a record of `p1` goes to `v1`,
      else one of `p2` to `v2`, a later score replacing an earlier one. */
  function Sides(p1: string, p2: string, recs: seq<Rec>): (map<string, real>, map<string, real>) {
    if recs == [] then (map[], map[])
    else
      var (v1, v2) := Sides(p1, p2, recs[..|recs| - 1]);
      var r := recs[|recs| - 1];
      if r.path == p1 then (v1[r.feature := r.mi], v2)
      else if r.path == p2 then (v1, v2[r.feature := r.mi])
      else (v1, v2)
  }

  ghost function Pick(s: set<string>): string
    requires s != {}
  {
    var x :| x in s; x
  }

  /** What feature `f` of `v1` adds to the sum of `side`: both scores when `v2` shares it
      and it is classified to `side`, else nothing. */
  function Term(v1: map<string, real>, v2: map<string, real>, f: string, c: Classifier, side: int): real
    requires f in v1
  {
    if f in v2 && SideOf(c, f) == side then v1[f] + v2[f] else 0.0
  }

  /** The sum of `Term` over a set of `v1`'s features. */
  ghost function SharedSum(v1: map<string, real>, v2: map<string, real>, fs: set<string>, c: Classifier, side: int): real
    requires fs <= v1.Keys
    decreases fs
  {
    if fs == {} then 0.0
    else
      var f := Pick(fs);
      SharedSum(v1, v2, fs - {f}, c, side) + Term(v1, v2, f, c, side)
  }

  /** The sum does not depend on the order the features are visited in. */
  lemma SharedSumRemove(v1: map<string, real>, v2: map<string, real>, fs: set<string>, f: string, c: Classifier, side: int)
    requires fs <= v1.Keys && f in fs
    ensures SharedSum(v1, v2, fs, c, side) == SharedSum(v1, v2, fs - {f}, c, side) + Term(v1, v2, f, c, side)
    decreases fs
  {
    var g := Pick(fs);
    if g != f {
      SharedSumRemove(v1, v2, fs - {g}, f, c, side);
      SharedSumRemove(v1, v2, fs - {f}, g, c, side);
      assert fs - {g} - {f} == fs - {f} - {g};
    }
  }

  /** A sum whose every term is zero is zero. */
  lemma SharedSumZero(v1: map<string, real>, v2: map<string, real>, fs: set<string>, c: Classifier, side: int)
    requires fs <= v1.Keys
    requires forall f :: f in fs ==> Term(v1, v2, f, c, side) == 0.0
    ensures SharedSum(v1, v2, fs, c, side) == 0.0
    decreases fs
  {
    if fs != {} {
      SharedSumZero(v1, v2, fs - {Pick(fs)}, c, side);
    }
  }

  /** `Job3_Overlap.Reduce.reduce` with classifier `c`: `(numX, numY)`, or `None` when the
      key has fewer than two fields or a value cannot be read. */
  ghost function Overlap(c: Classifier, key: string, values: seq<string>, parseDouble: string -> Option<real>): Option<(real, real)> {
    var kp := JavaSplit(key, '\t');
    if |kp| < 2 then None
    else
      match Recs(values, parseDouble)
      case None => None
      case Some(recs) =>
        var (v1, v2) := Sides(kp[0], kp[1], recs);
        Some((SharedSum(v1, v2, v1.Keys, c, X_SIDE), SharedSum(v1, v2, v1.Keys, c, Y_SIDE)))
  }

  lemma RecsSnoc(values: seq<string>, i: int, parseDouble: string -> Option<real>)
    requires 0 <= i < |values|
    ensures Recs(values[..i + 1], parseDouble)
      == match Recs(values[..i], parseDouble)
         case None => None
         case Some(init) =>
           match RecOf(values[i], parseDouble)
           case None => None
           case Some(r) => Some(init + [r])
  {
    assert values[..i + 1][..i] == values[..i];
  }

  lemma {:induction false} RecsNone(values: seq<string>, k: int, parseDouble: string -> Option<real>)
    requires 0 <= k <= |values| && Recs(values[..k], parseDouble).None?
    ensures Recs(values, parseDouble).None?
    decreases |values| - k
  {
    if k < |values| {
      RecsSnoc(values, k, parseDouble);
      RecsNone(values, k + 1, parseDouble);
    } else {
      assert values[..k] == values;
    }
  }

  lemma SidesSnoc(p1: string, p2: string, recs: seq<Rec>, r: Rec)
    ensures Sides(p1, p2, recs + [r])
      == var (v1, v2) := Sides(p1, p2, recs);
         if r.path == p1 then (v1[r.feature := r.mi], v2)
         else if r.path == p2 then (v1, v2[r.feature := r.mi])
         else (v1, v2)
  {
    assert (recs + [r])[..|recs|] == recs;
  }

  /** The statements that read one value. */
  method ReadValue(value: string, parseDouble: string -> Option<real>) returns (r: Option<Rec>)
    ensures r == RecOf(value, parseDouble)
  {
    var parts := JavaSplit(value, '\t');
    if |parts| < 4 {
      return None;
    }
    var recordPath := parts[0];
    var feature := parts[1] + ":" + parts[2];
    var mi := parseDouble(parts[3]);
    if mi.None? {
      return None;
    }
    r := Some(Rec(recordPath, feature, mi.value));
  }

  /** `reduce`: fills `v1` and `v2`, then visits `v1`'s features in any order, adding the
      two scores of each shared feature to `numX` or `numY` as `c` classifies it. */
  method Reduce(c: Classifier, key: string, values: seq<string>, parseDouble: string -> Option<real>)
    returns (r: Option<(real, real)>)
    ensures r == Overlap(c, key, values, parseDouble)
  {
    var keyPaths := JavaSplit(key, '\t');
    if |keyPaths| < 2 {
      return None;
    }
    var p1Key, p2Key := keyPaths[0], keyPaths[1];
    var v1: map<string, real> := map[];
    var v2: map<string, real> := map[];
    ghost var recs: seq<Rec> := [];
    for i := 0 to |values|
      invariant Recs(values[..i], parseDouble) == Some(recs)
      invariant (v1, v2) == Sides(p1Key, p2Key, recs)
    {
      RecsSnoc(values, i, parseDouble);
      var rec := ReadValue(values[i], parseDouble);
      if rec.None? {
        RecsNone(values, i + 1, parseDouble);
        return None;
      }
      var x := rec.value;
      SidesSnoc(p1Key, p2Key, recs, x);
      if x.path == p1Key {
        v1 := v1[x.feature := x.mi];
      } else if x.path == p2Key {
        v2 := v2[x.feature := x.mi];
      }
      recs := recs + [x];
    }
    assert values[..|values|] == values;
    var numX, numY := 0.0, 0.0;
    var todo := v1.Keys;
    while todo != {}
      invariant todo <= v1.Keys
      invariant numX + SharedSum(v1, v2, todo, c, X_SIDE) == SharedSum(v1, v2, v1.Keys, c, X_SIDE)
      invariant numY + SharedSum(v1, v2, todo, c, Y_SIDE) == SharedSum(v1, v2, v1.Keys, c, Y_SIDE)
      decreases todo
    {
      var feat :| feat in todo;
      SharedSumRemove(v1, v2, todo, feat, c, X_SIDE);
      SharedSumRemove(v1, v2, todo, feat, c, Y_SIDE);
      if feat in v2 {
        var sum := v1[feat] + v2[feat];
        var side := SideOf(c, feat);
        if side == X_SIDE {
          numX := numX + sum;
        } else if side == Y_SIDE {
          numY := numY + sum;
        }
      }
      todo := todo - {feat};
    }
    r := Some((numX, numY));
  }

  /** When both key paths are the same, every record lands in `v1`. */
  lemma {:induction false} SamePathSecondEmpty(p: string, recs: seq<Rec>)
    ensures Sides(p, p, recs).1 == map[]
  {
    if recs != [] {
      SamePathSecondEmpty(p, recs[..|recs| - 1]);
    }
  }

  /** A key `p\tp` scores nothing on either side. */
  lemma SamePathScoresZero(c: Classifier, key: string, values: seq<string>, parseDouble: string -> Option<real>)
    requires var kp := JavaSplit(key, '\t'); |kp| >= 2 && kp[0] == kp[1]
    ensures Overlap(c, key, values, parseDouble) == None
         || Overlap(c, key, values, parseDouble) == Some((0.0, 0.0))
  {
    var kp := JavaSplit(key, '\t');
    if Recs(values, parseDouble).Some? {
      var recs := Recs(values, parseDouble).value;
      SamePathSecondEmpty(kp[0], recs);
      var (v1, v2) := Sides(kp[0], kp[1], recs);
      SharedSumZero(v1, v2, v1.Keys, c, X_SIDE);
      SharedSumZero(v1, v2, v1.Keys, c, Y_SIDE);
    }
  }

  /** Only features present in both maps contribute: disjoint maps score nothing. */
  lemma DisjointScoresZero(v1: map<string, real>, v2: map<string, real>, c: Classifier, side: int)
    requires v1.Keys !! v2.Keys
    ensures SharedSum(v1, v2, v1.Keys, c, side) == 0.0
  {
    SharedSumZero(v1, v2, v1.Keys, c, side);
  }

  // ---------------------------------------------------------------------------
  // The side test as written and as intended
  // ---------------------------------------------------------------------------

  /** The last character of the feature is not an upper-case letter. */
  predicate EndsLower(f: string) {
    |f| > 0 && !IsUpper(f[|f| - 1])
  }

  /** A feature `slot:word` with a lower-case word, as the stemmer produces, ends lower. */
  lemma FeatureEndsLower(slot: string, word: string)
    requires IsLower(word)
    ensures EndsLower(slot + ":" + word)
  {
  }

  /** As written, a feature that ends lower is on neither side. */
  lemma AsWrittenNoSide(f: string)
    requires EndsLower(f)
    ensures SideOf(AsWritten, f) == NO_SIDE
  {
    if |f| >= 2 {
      assert f[|f| - 2..][1] == f[|f| - 1];
    }
  }

  /** As written, maps whose features all end lower score zero on both sides, however many
      features they share. */
  lemma AsWrittenScoresNothing(v1: map<string, real>, v2: map<string, real>)
    requires forall f :: f in v1 ==> EndsLower(f)
    ensures SharedSum(v1, v2, v1.Keys, AsWritten, X_SIDE) == 0.0
    ensures SharedSum(v1, v2, v1.Keys, AsWritten, Y_SIDE) == 0.0
  {
    forall f | f in v1.Keys ensures SideOf(AsWritten, f) == NO_SIDE {
      AsWrittenNoSide(f);
    }
    SharedSumZero(v1, v2, v1.Keys, AsWritten, X_SIDE);
    SharedSumZero(v1, v2, v1.Keys, AsWritten, Y_SIDE);
  }

  /** The intended test puts a feature `slot:word` on the side its slot names. */
  lemma IntendedSide(slot: string, word: string)
    requires ':' !in slot
    ensures SideOf(Intended, slot + ":" + word)
      == if slot == "X" then X_SIDE else if slot == "Y" then Y_SIDE else NO_SIDE
  {
    var f := slot + ":" + word;
    if slot == "X" || slot == "Y" {
      assert f[..2] == slot + ":" && f[0] == slot[0];
    } else if |slot| >= 2 {
      assert f[1] == slot[1];
    } else if |slot| == 1 {
      assert f[0] == slot[0];
    } else {
      assert f[0] == ':';
    }
  }

  /** The input that shows the difference: both paths share the X-slot feature `X:dog`.
      As written nothing is summed; as intended both scores go to `numX`. */
  lemma SharedXFeature()
    ensures var v1, v2 := map["X:dog" := 1.0], map["X:dog" := 2.0];
      && SharedSum(v1, v2, v1.Keys, AsWritten, X_SIDE) == 0.0
      && SharedSum(v1, v2, v1.Keys, Intended, X_SIDE) == 3.0
  {
    var v1, v2 := map["X:dog" := 1.0], map["X:dog" := 2.0];
    assert v1.Keys == {"X:dog"};
    SharedSumRemove(v1, v2, v1.Keys, "X:dog", AsWritten, X_SIDE);
    SharedSumRemove(v1, v2, v1.Keys, "X:dog", Intended, X_SIDE);
    AsWrittenNoSide("X:dog");
    IntendedSide("X", "dog");
  }
}
