/**
 * `PathExtractor.isValid` and `PathExtractor.buildPath`: the auxiliary-verb filter on a path
 * of token indices, and its rendering as the canonical string
 * `N:rel:SEG:rel:...:rel:N`, where interior segments are `V:stem`, `P:word` or `W:word` and
 * each `rel` is `<dep` (the current token hangs from the next) or `>dep` (the next token
 * hangs from the current one).
 */
module PathRender {
  import opened Strings
  import opened Tokens

  /** Every index of the path names a token. */
  predicate OnPath(toks: seq<Token>, path: seq<int>) {
    forall k :: 0 <= k < |path| ==> 0 <= path[k] < |toks|
  }

  /** Some token on the path is a verb that is not an auxiliary. */
  predicate HasContentVerb(toks: seq<Token>, path: seq<int>)
    requires OnPath(toks, path)
  {
    exists k :: 0 <= k < |path| && IsContentVerb(toks[path[k]])
  }

  /** `isValid`: scans the path and answers as soon as it meets a content verb. */
  method IsValid(toks: seq<Token>, path: seq<int>) returns (b: bool)
    requires OnPath(toks, path)
    ensures b <==> HasContentVerb(toks, path)
  {
    for k := 0 to |path|
      invariant forall m :: 0 <= m < k ==> !IsContentVerb(toks[path[m]])
    {
      var t := toks[path[k]];
      if t.IsVerb() && ToLower(t.word) !in AUX {
        return true;
      }
    }
    return false;
  }

  /** The segment of position `i`: `N` at both ends, else by the first class that applies. */
  function Segment(toks: seq<Token>, path: seq<int>, i: int): string
    requires OnPath(toks, path) && 0 <= i < |path|
  {
    var t := toks[path[i]];
    if i == 0 || i == |path| - 1 then "N"
    else if t.IsVerb() then "V:" + Stem(t.word)
    else if t.IsPrep() then "P:" + ToLower(t.word)
    else "W:" + ToLower(t.word)
  }

  /** The relation between consecutive path tokens `curr` and `next`. */
  function Rel(toks: seq<Token>, curr: int, next: int): string
    requires 0 <= curr < |toks| && 0 <= next < |toks|
  {
    if toks[curr].head - 1 == next then "<" + toks[curr].dep else ">" + toks[next].dep
  }

  /** A segment followed by the relation to the next one, wrapped in colons. */
  function Link(seg: string, rel: string): string {
    seg + ":" + rel + ":"
  }

  /** What one iteration of `buildPath`'s loop appends. */
  function Step(toks: seq<Token>, path: seq<int>, i: int): string
    requires OnPath(toks, path) && 0 <= i < |path|
  {
    if i < |path| - 1 then Link(Segment(toks, path, i), Rel(toks, path[i], path[i + 1]))
    else Segment(toks, path, i)
  }

  /** `segs[0] :rels[0]: segs[1] ... :rels[n-2]: segs[n-1]`, built from the front. */
  function Interleave(segs: seq<string>, rels: seq<string>): string
    requires |segs| == |rels| + 1
  {
    if rels == [] then segs[0]
    else Link(segs[0], rels[0]) + Interleave(segs[1..], rels[1..])
  }

  /** The first `k` pieces of an interleaving, each segment followed by its relation. */
  function Weave(segs: seq<string>, rels: seq<string>, k: int): string
    requires |segs| == |rels| + 1 && 0 <= k <= |segs|
  {
    if k == 0 then ""
    else Weave(segs, rels, k - 1) + (if k - 1 < |rels| then Link(segs[k - 1], rels[k - 1]) else segs[k - 1])
  }

  function Segments(toks: seq<Token>, path: seq<int>): (r: seq<string>)
    requires OnPath(toks, path)
    ensures |r| == |path| && forall i :: 0 <= i < |path| ==> r[i] == Segment(toks, path, i)
  {
    seq(|path|, i requires 0 <= i < |path| => Segment(toks, path, i))
  }

  function Rels(toks: seq<Token>, path: seq<int>): (r: seq<string>)
    requires OnPath(toks, path) && |path| >= 1
    ensures |r| == |path| - 1 && forall i :: 0 <= i < |path| - 1 ==> r[i] == Rel(toks, path[i], path[i + 1])
  {
    seq(|path| - 1, i requires 0 <= i < |path| - 1 => Rel(toks, path[i], path[i + 1]))
  }

  /** The string builder after the first `k` iterations. */
  function RenderUpTo(toks: seq<Token>, path: seq<int>, k: int): string
    requires OnPath(toks, path) && 0 <= k <= |path|
  {
    if path == [] then "" else Weave(Segments(toks, path), Rels(toks, path), k)
  }

  function Render(toks: seq<Token>, path: seq<int>): string
    requires OnPath(toks, path)
  {
    RenderUpTo(toks, path, |path|)
  }

  /** Each iteration appends its step to the builder. */
  lemma RenderNext(toks: seq<Token>, path: seq<int>, i: int)
    requires OnPath(toks, path) && 0 <= i < |path|
    ensures RenderUpTo(toks, path, i + 1) == RenderUpTo(toks, path, i) + Step(toks, path, i)
  {
    var segs, rels := Segments(toks, path), Rels(toks, path);
    assert segs[i] == Segment(toks, path, i);
    if i < |rels| {
      assert rels[i] == Rel(toks, path[i], path[i + 1]);
    }
  }

  /** The segment choice of `buildPath`'s loop body, by predicate priority. */
  method SegmentOf(toks: seq<Token>, path: seq<int>, i: int) returns (seg: string)
    requires OnPath(toks, path) && 0 <= i < |path|
    ensures seg == Segment(toks, path, i)
  {
    var t := toks[path[i]];
    if i == 0 || i == |path| - 1 {
      seg := "N";
    } else if t.IsVerb() {
      seg := "V:" + Stem(t.word);
    } else if t.IsPrep() {
      seg := "P:" + ToLower(t.word);
    } else {
      seg := "W:" + ToLower(t.word);
    }
  }

  /** `buildPath`: the `StringBuilder` loop. */
  method BuildPath(toks: seq<Token>, path: seq<int>) returns (s: string)
    requires OnPath(toks, path)
    ensures s == Render(toks, path)
  {
    s := "";
    for i := 0 to |path|
      invariant s == RenderUpTo(toks, path, i)
    {
      RenderNext(toks, path, i);
      var t := toks[path[i]];
      var seg := SegmentOf(toks, path, i);
      if i < |path| - 1 {
        var next := path[i + 1];
        var tNext := toks[next];
        var rel := if t.head - 1 == next then "<" + t.dep else ">" + tNext.dep;
        seg := Link(seg, rel);
      }
      s := s + seg;
    }
  }

  /** The relation reads `<` exactly when the current token's head is the next token, and
      then names the current token's dependency; otherwise it names the next token's. */
  lemma RelDirection(toks: seq<Token>, curr: int, next: int)
    requires 0 <= curr < |toks| && 0 <= next < |toks|
    ensures Rel(toks, curr, next)[0] == '<' <==> toks[curr].head - 1 == next
    ensures Rel(toks, curr, next)[1..] == if toks[curr].head - 1 == next then toks[curr].dep else toks[next].dep
  {
  }

  lemma Associative(a: string, b: string, c: string)
    ensures a + (b + c) == a + b + c
  {
  }

  lemma {:induction false} WeaveSuffix(segs: seq<string>, rels: seq<string>, k: int)
    requires |segs| == |rels| + 1 && 0 <= k < |segs|
    ensures Weave(segs, rels, k) + Interleave(segs[k..], rels[k..]) == Interleave(segs, rels)
    decreases k
  {
    if k > 0 {
      WeaveSuffix(segs, rels, k - 1);
      assert segs[k - 1..][1..] == segs[k..] && rels[k - 1..][1..] == rels[k..];
      assert Interleave(segs[k - 1..], rels[k - 1..])
        == Link(segs[k - 1], rels[k - 1]) + Interleave(segs[k..], rels[k..]);
      Associative(Weave(segs, rels, k - 1), Link(segs[k - 1], rels[k - 1]), Interleave(segs[k..], rels[k..]));
    }
  }

  lemma {:induction false} WeaveAll(segs: seq<string>, rels: seq<string>)
    requires |segs| == |rels| + 1
    ensures Weave(segs, rels, |segs|) == Interleave(segs, rels)
  {
    var n := |segs|;
    WeaveSuffix(segs, rels, n - 1);
    assert segs[n - 1..] == [segs[n - 1]] && rels[n - 1..] == [];
  }

  /** A path of `k` indices renders as its `k` segments joined by its `k - 1` relations,
      each wrapped in colons. */
  lemma RenderIsInterleaving(toks: seq<Token>, path: seq<int>)
    requires OnPath(toks, path) && |path| >= 1
    ensures Render(toks, path) == Interleave(Segments(toks, path), Rels(toks, path))
  {
    WeaveAll(Segments(toks, path), Rels(toks, path));
  }

  lemma {:induction false} InterleaveEnds(segs: seq<string>, rels: seq<string>)
    requires |segs| == |rels| + 1 && |rels| >= 1
    ensures StartsWith(Interleave(segs, rels), segs[0] + ":")
    ensures EndsWith(Interleave(segs, rels), ":" + segs[|segs| - 1])
  {
    var rest := Interleave(segs[1..], rels[1..]);
    var head := segs[0] + ":" + rels[0] + ":";
    assert Interleave(segs, rels) == head + rest;
    assert (head + rest)[..|segs[0]| + 1] == segs[0] + ":";
    if |rels| == 1 {
      assert rest == segs[1];
    } else {
      InterleaveEnds(segs[1..], rels[1..]);
    }
  }

  /** A rendered path of at least two tokens starts with `N:` and ends with `:N`. */
  lemma RenderEnds(toks: seq<Token>, path: seq<int>)
    requires OnPath(toks, path) && |path| >= 2
    ensures StartsWith(Render(toks, path), "N:") && EndsWith(Render(toks, path), ":N")
  {
    RenderIsInterleaving(toks, path);
    var segs := Segments(toks, path);
    InterleaveEnds(segs, Rels(toks, path));
    assert segs[0] + ":" == "N:" && ":" + segs[|segs| - 1] == ":N";
  }

  lemma SegmentAvoids(toks: seq<Token>, path: seq<int>, i: int, c: char)
    requires OnPath(toks, path) && 0 <= i < |path|
    requires c < 'A' && c != ':' && c !in toks[path[i]].word
    ensures c !in Segment(toks, path, i)
  {
    StemAvoids(toks[path[i]].word, c);
    LowerAvoids(toks[path[i]].word, c);
  }

  lemma {:induction false} WeaveAvoids(segs: seq<string>, rels: seq<string>, k: int, c: char)
    requires |segs| == |rels| + 1 && 0 <= k <= |segs| && c != ':'
    requires forall i :: 0 <= i < |segs| ==> c !in segs[i]
    requires forall i :: 0 <= i < |rels| ==> c !in rels[i]
    ensures c !in Weave(segs, rels, k)
  {
    if k > 0 {
      WeaveAvoids(segs, rels, k - 1, c);
      var piece := if k - 1 < |rels| then Link(segs[k - 1], rels[k - 1]) else segs[k - 1];
      assert c !in piece by {
        if k - 1 < |rels| {
          LinkAvoids(segs[k - 1], rels[k - 1], c);
        }
      }
      NotInConcat(Weave(segs, rels, k - 1), piece, c);
    }
  }

  lemma NotInConcat(a: string, b: string, c: char)
    requires c !in a && c !in b
    ensures c !in a + b
  {
  }

  lemma LinkAvoids(seg: string, rel: string, c: char)
    requires c !in seg && c !in rel && c != ':'
    ensures c !in Link(seg, rel)
  {
    NotInConcat(seg, ":", c);
    NotInConcat(seg + ":", rel, c);
    NotInConcat(seg + ":" + rel, ":", c);
  }

  lemma SegmentsAvoid(toks: seq<Token>, path: seq<int>, c: char)
    requires OnPath(toks, path)
    requires c < 'A' && c != ':'
    requires forall i :: 0 <= i < |toks| ==> c !in toks[i].word
    ensures forall i :: 0 <= i < |path| ==> c !in Segments(toks, path)[i]
  {
    forall i | 0 <= i < |path| ensures c !in Segments(toks, path)[i] {
      SegmentAvoids(toks, path, i, c);
    }
  }

  lemma RelsAvoid(toks: seq<Token>, path: seq<int>, c: char)
    requires OnPath(toks, path) && |path| >= 1
    requires c != '<' && c != '>'
    requires forall i :: 0 <= i < |toks| ==> c !in toks[i].dep
    ensures forall i :: 0 <= i < |path| - 1 ==> c !in Rels(toks, path)[i]
  {
  }

  /** A character below `A` that no word or dependency label contains never appears in a
      rendering; in particular a tab does not. */
  lemma RenderAvoids(toks: seq<Token>, path: seq<int>, c: char)
    requires OnPath(toks, path)
    requires c < 'A' && c != ':' && c != '<' && c != '>'
    requires forall i :: 0 <= i < |toks| ==> c !in toks[i].word && c !in toks[i].dep
    ensures c !in Render(toks, path)
  {
    if path != [] {
      SegmentsAvoid(toks, path, c);
      RelsAvoid(toks, path, c);
      WeaveAvoids(Segments(toks, path), Rels(toks, path), |path|, c);
    }
  }
}
