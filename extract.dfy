/**
 * `PathExtractor.extractPaths`: for every pair of noun positions `i < j`, in lexicographic
 * order, the shortest dependency path between the two nouns is computed; when it exists and
 * carries a content verb, the line `path \t stem(x) \t stem(y)` is emitted.
 */
module Extraction {
  import opened Wrappers
  import opened Strings
  import opened Tokens
  import opened DepGraph
  import opened PathRender

  /** The positions of the nouns, in increasing order. */
  function NounIndices(toks: seq<Token>): (r: seq<int>)
    ensures forall k :: 0 <= k < |r| ==> 0 <= r[k] < |toks| && toks[r[k]].IsNoun()
    ensures forall k, m :: 0 <= k < m < |r| ==> r[k] < r[m]
  {
    if toks == [] then []
    else
      var n := |toks| - 1;
      var init := NounIndices(toks[..n]);
      assert forall k :: 0 <= k < |init| ==> toks[..n][init[k]] == toks[init[k]];
      init + (if toks[n].IsNoun() then [n] else [])
  }

  /** Every noun position is listed. */
  lemma {:induction false} NounIndicesComplete(toks: seq<Token>, i: int)
    requires 0 <= i < |toks| && toks[i].IsNoun()
    ensures i in NounIndices(toks)
  {
    var n := |toks| - 1;
    if i < n {
      assert toks[..n][i] == toks[i];
      NounIndicesComplete(toks[..n], i);
    }
  }

  /** The first loop of `extractPaths`. */
  method Nouns(toks: seq<Token>) returns (nouns: seq<int>)
    ensures nouns == NounIndices(toks)
  {
    nouns := [];
    for i := 0 to |toks|
      invariant nouns == NounIndices(toks[..i])
    {
      assert toks[..i + 1][..i] == toks[..i];
      if toks[i].IsNoun() {
        nouns := nouns + [i];
      }
    }
    assert toks[..|toks|] == toks;
  }

  /** The line emitted for the nouns `src` and `dst` joined by `path`. */
  function Line(toks: seq<Token>, path: seq<int>, src: int, dst: int): string
    requires OnPath(toks, path) && 0 <= src < |toks| && 0 <= dst < |toks|
  {
    Render(toks, path) + "\t" + Stem(toks[src].word) + "\t" + Stem(toks[dst].word)
  }

  lemma ShortestOnPath(toks: seq<Token>, src: int, dst: int, p: seq<int>)
    requires IsShortestPath(toks, src, dst, p)
    ensures OnPath(toks, p) && |p| >= 1
  {
  }

  /** The pair `(src, dst)` is emitted through `path`, a shortest path with a content verb. */
  ghost predicate Accepted(toks: seq<Token>, pair: (int, int), path: seq<int>, line: string) {
    && 0 <= pair.0 < pair.1 < |toks| && toks[pair.0].IsNoun() && toks[pair.1].IsNoun()
    && IsShortestPath(toks, pair.0, pair.1, path)
    && OnPath(toks, path) && HasContentVerb(toks, path)
    && line == Line(toks, path, pair.0, pair.1)
  }

  /** The pair `(src, dst)` may be skipped: no path joins the nouns, or a shortest one has no
      content verb. */
  ghost predicate Rejected(toks: seq<Token>, src: int, dst: int) {
    || !Reachable(toks, src, dst)
    || exists p :: IsShortestPath(toks, src, dst, p) && OnPath(toks, p) && !HasContentVerb(toks, p)
  }

  /** Every emitted line is accepted through its pair and path. */
  ghost predicate AllAccepted(toks: seq<Token>, pairs: seq<(int, int)>, paths: seq<seq<int>>, results: seq<string>) {
    && |pairs| == |results| && |paths| == |results|
    && forall k {:trigger Accepted(toks, pairs[k], paths[k], results[k])} :: 0 <= k < |results| ==>
         Accepted(toks, pairs[k], paths[k], results[k])
  }

  lemma AllAcceptedConcat(toks: seq<Token>, p1: seq<(int, int)>, q1: seq<seq<int>>, r1: seq<string>,
                          p2: seq<(int, int)>, q2: seq<seq<int>>, r2: seq<string>)
    requires AllAccepted(toks, p1, q1, r1) && AllAccepted(toks, p2, q2, r2)
    ensures AllAccepted(toks, p1 + p2, q1 + q2, r1 + r2)
  {
    forall k | 0 <= k < |r1 + r2| ensures Accepted(toks, (p1 + p2)[k], (q1 + q2)[k], (r1 + r2)[k]) {
      if k < |r1| {
        assert (p1 + p2)[k] == p1[k] && (q1 + q2)[k] == q1[k] && (r1 + r2)[k] == r1[k];
        assert Accepted(toks, p1[k], q1[k], r1[k]);
      } else {
        var m := k - |r1|;
        assert (p1 + p2)[k] == p2[m] && (q1 + q2)[k] == q2[m] && (r1 + r2)[k] == r2[m];
        assert Accepted(toks, p2[m], q2[m], r2[m]);
      }
    }
  }

  /** The pair `(src, dst)` was emitted, or may be skipped. */
  ghost predicate Covered(toks: seq<Token>, src: int, dst: int, pairs: seq<(int, int)>) {
    (src, dst) in pairs || Rejected(toks, src, dst)
  }

  /** Increasing positions of nouns. */
  predicate NounList(toks: seq<Token>, nouns: seq<int>) {
    && (forall k :: 0 <= k < |nouns| ==> 0 <= nouns[k] < |toks| && toks[nouns[k]].IsNoun())
    && (forall k, m :: 0 <= k < m < |nouns| ==> nouns[k] < nouns[m])
  }

  predicate LexBefore(a: (int, int), b: (int, int)) {
    a.0 < b.0 || (a.0 == b.0 && a.1 < b.1)
  }

  predicate LexSorted(pairs: seq<(int, int)>) {
    forall k, m :: 0 <= k < m < |pairs| ==> LexBefore(pairs[k], pairs[m])
  }

  /** The body of the inner loop for one pair of nouns. */
  method ExtractPair(toks: seq<Token>, src: int, dst: int) returns (line: Option<string>, ghost path: seq<int>)
    requires 0 <= src < dst < |toks| && toks[src].IsNoun() && toks[dst].IsNoun()
    ensures line.Some? ==> AllAccepted(toks, [(src, dst)], [path], [line.value])
    ensures line.None? ==> Rejected(toks, src, dst)
  {
    var found := ShortestPath(toks, src, dst);
    if found.None? {
      return None, [];
    }
    var p := found.value;
    path := p;
    ShortestOnPath(toks, src, dst, p);
    var valid := IsValid(toks, p);
    if !valid {
      return None, p;
    }
    var pStr := BuildPath(toks, p);
    var x := Stem(toks[src].word);
    var y := Stem(toks[dst].word);
    line := Some(pStr + "\t" + x + "\t" + y);
    assert Accepted(toks, (src, dst), path, line.value);
  }

  lemma LexSortedConcat(p1: seq<(int, int)>, p2: seq<(int, int)>, x: int)
    requires LexSorted(p1) && LexSorted(p2)
    requires forall k :: 0 <= k < |p1| ==> p1[k].0 < x
    requires forall k :: 0 <= k < |p2| ==> p2[k].0 == x
    ensures LexSorted(p1 + p2)
  {
    forall k, m | 0 <= k < m < |p1 + p2| ensures LexBefore((p1 + p2)[k], (p1 + p2)[m]) {
      if m < |p1| {
        assert (p1 + p2)[k] == p1[k] && (p1 + p2)[m] == p1[m];
      } else if k < |p1| {
        assert (p1 + p2)[k] == p1[k] && (p1 + p2)[m] == p2[m - |p1|];
      } else {
        assert (p1 + p2)[k] == p2[k - |p1|] && (p1 + p2)[m] == p2[m - |p1|];
      }
    }
  }

  /** The inner loop of `extractPaths`: the pairs `(nouns[i], nouns[j])` for `j > i`. */
  method ExtractFrom(toks: seq<Token>, nouns: seq<int>, i: int)
    returns (results: seq<string>, ghost pairs: seq<(int, int)>, ghost paths: seq<seq<int>>)
    requires NounList(toks, nouns) && 0 <= i < |nouns|
    ensures AllAccepted(toks, pairs, paths, results) && |results| <= |nouns| - 1 - i
    ensures forall k :: 0 <= k < |pairs| ==> pairs[k].0 == nouns[i]
    ensures LexSorted(pairs)
    ensures forall b :: i < b < |nouns| ==> Covered(toks, nouns[i], nouns[b], pairs)
  {
    results, pairs, paths := [], [], [];
    var src := nouns[i];
    for j := i + 1 to |nouns|
      invariant AllAccepted(toks, pairs, paths, results) && |results| <= j - 1 - i
      invariant forall k :: 0 <= k < |pairs| ==> pairs[k].0 == src
      invariant j < |nouns| ==> forall k :: 0 <= k < |pairs| ==> pairs[k].1 < nouns[j]
      invariant LexSorted(pairs)
      invariant forall b :: i < b < j ==> Covered(toks, src, nouns[b], pairs)
    {
      var dst := nouns[j];
      var line, path := ExtractPair(toks, src, dst);
      if line.Some? {
        AllAcceptedConcat(toks, pairs, paths, results, [(src, dst)], [path], [line.value]);
        ghost var pairs' := pairs + [(src, dst)];
        forall b | i < b < j ensures Covered(toks, src, nouns[b], pairs') {
          assert Covered(toks, src, nouns[b], pairs);
        }
        results, pairs, paths := results + [line.value], pairs', paths + [path];
      }
      assert forall b :: j < b < |nouns| ==> dst < nouns[b];
    }
  }

  /** `2 * PairCount(n, i)` is `i * (2n - i - 1)`: the pairs `(a, b)` with `a < i` and `a < b < n`. */
  function PairCount(n: int, i: nat): int {
    if i == 0 then 0 else PairCount(n, i - 1) + (n - i)
  }

  lemma {:induction false} PairCountClosed(n: int, i: nat)
    ensures 2 * PairCount(n, i) == i * (2 * n - i - 1)
  {
    if i > 0 {
      PairCountClosed(n, i - 1);
      assert (i - 1) * (2 * n - i) + 2 * (n - i) == i * (2 * n - i - 1);
    }
  }

  /** `extractPaths`. The lines come out in lexicographic order of their noun pairs, each one
      the rendering of a shortest path with a content verb; every pair left out has no path
      or a shortest path without a content verb; with `k` nouns there are at most
      `k (k - 1) / 2` lines. */
  method ExtractPaths(toks: seq<Token>)
    returns (results: seq<string>, ghost pairs: seq<(int, int)>, ghost paths: seq<seq<int>>)
    ensures AllAccepted(toks, pairs, paths, results)
    ensures LexSorted(pairs)
    ensures var nouns := NounIndices(toks);
      forall a, b :: 0 <= a < b < |nouns| ==> Covered(toks, nouns[a], nouns[b], pairs)
    ensures var k := |NounIndices(toks)|; 2 * |results| <= k * (k - 1)
  {
    var nouns := Nouns(toks);
    var n := |nouns|;
    results, pairs, paths := [], [], [];
    for i := 0 to n
      invariant AllAccepted(toks, pairs, paths, results) && |results| <= PairCount(n, i)
      invariant LexSorted(pairs)
      invariant i < n ==> forall k :: 0 <= k < |pairs| ==> pairs[k].0 < nouns[i]
      invariant forall a, b :: 0 <= a < i && a < b < n ==> Covered(toks, nouns[a], nouns[b], pairs)
    {
      var rs, ps, qs := ExtractFrom(toks, nouns, i);
      AllAcceptedConcat(toks, pairs, paths, results, ps, qs, rs);
      LexSortedConcat(pairs, ps, nouns[i]);
      ghost var pairs' := pairs + ps;
      forall a, b | 0 <= a < i + 1 && a < b < n ensures Covered(toks, nouns[a], nouns[b], pairs') {
        if a < i {
          assert Covered(toks, nouns[a], nouns[b], pairs);
        } else {
          assert Covered(toks, nouns[a], nouns[b], ps);
        }
      }
      results, pairs, paths := results + rs, pairs', paths + qs;
      assert forall k :: 0 <= k < |pairs| ==> pairs[k].0 <= nouns[i];
      assert i + 1 < n ==> nouns[i] < nouns[i + 1];
    }
    PairCountClosed(n, n);
  }
}
