/**
 * The evaluation script's logic: translating a test-set phrase such as `X confuse with Y`
 * into the path format the extractor renders, normalising an unordered pair of paths,
 * keeping the highest score per pair, the running true/false-positive counts behind the
 * threshold search and the precision/recall curve, and the bucketing of examples for the
 * error analysis. Scores are modelled as reals, the stemmer as a function parameter.
 */
module Evaluate {
  import opened Wrappers
  import opened Strings
  import opened Tokens
  import opened PathRender

  // ---------------------------------------------------------------------------
  // convert_phrase_to_path
  // ---------------------------------------------------------------------------

  /** `phrase.replace("X", "").replace("Y", "")`: every `X` and `Y`, wherever it occurs. */
  function DropXY(s: string): (r: string)
    ensures 'X' !in r && 'Y' !in r
    ensures |r| <= |s|
  {
    if s == [] then []
    else
      var c := s[|s| - 1];
      DropXY(s[..|s| - 1]) + (if c == 'X' || c == 'Y' then [] else [c])
  }

  lemma {:induction false} DropXYConcat(a: string, b: string)
    ensures DropXY(a + b) == DropXY(a) + DropXY(b)
    decreases |b|
  {
    if b == [] {
      assert a + b == a;
    } else {
      var b' := b[..|b| - 1];
      assert (a + b)[..|a + b| - 1] == a + b';
      assert (a + b)[|a + b| - 1] == b[|b| - 1];
      DropXYConcat(a, b');
    }
  }

  /** Characters other than `X` and `Y` pass through unchanged. */
  lemma {:induction false} DropXYKeeps(s: string)
    requires 'X' !in s && 'Y' !in s
    ensures DropXY(s) == s
  {
    if s != [] {
      DropXYKeeps(s[..|s| - 1]);
    }
  }

  /** The three templates; each must equal what the extractor renders for that shape. */
  function ActivePath(v: string): string {
    "N:<nsubj:V:" + v + ":>dobj:N"
  }

  function PrepPath(v: string, prep: string): string {
    "N:<nsubj:V:" + v + ":>prep:P:" + prep + ":>pobj:N"
  }

  function PassivePath(v: string): string {
    "N:<nsubjpass:V:" + v + ":>agent:P:by:>pobj:N"
  }

  /** The words of the phrase once the slot letters are gone. Python's `strip()` before
      `split()` changes nothing, since `split()` already ignores surrounding whitespace. */
  function PhraseWords(phrase: string): seq<string> {
    PySplit(DropXY(phrase))
  }

  function ConvertPhraseToPath(phrase: string, stem: string -> string): Option<string> {
    var words := PhraseWords(phrase);
    if |words| == 0 then None
    else if |words| == 1 then Some(ActivePath(stem(words[0])))
    else if |words| == 2 && words[1] != "by" then Some(PrepPath(stem(words[0]), words[1]))
    else if |words| == 2 then Some(PassivePath(stem(words[0])))
    else None
  }

  /** A phrase translates exactly when it has one or two words besides the slots, and the
      template is chosen by the word count and whether the second word is `by`. */
  lemma ConvertCases(phrase: string, stem: string -> string)
    ensures var words := PhraseWords(phrase);
      var r := ConvertPhraseToPath(phrase, stem);
      && (r.None? <==> |words| == 0 || |words| > 2)
      && (|words| == 1 ==> r == Some(ActivePath(stem(words[0]))))
      && (|words| == 2 && words[1] != "by" ==> r == Some(PrepPath(stem(words[0]), words[1])))
      && (|words| == 2 && words[1] == "by" ==> r == Some(PassivePath(stem(words[0]))))
  {
  }

  /** An `X` or `Y` anywhere in the phrase, not only at the slot positions, is deleted:
      inserting one changes nothing. */
  lemma SlotLetterIgnored(a: string, b: string, c: char, stem: string -> string)
    requires c == 'X' || c == 'Y'
    ensures ConvertPhraseToPath(a + [c] + b, stem) == ConvertPhraseToPath(a + b, stem)
  {
    DropXYConcat(a + [c], b);
    DropXYConcat(a, [c]);
    DropXYConcat(a, b);
    assert [c][..0] == [];
    assert DropXY([c]) == [];
    assert DropXY(a + [c]) == DropXY(a);
    SameWords(a + [c] + b, a + b, stem);
  }

  lemma SameWords(p: string, q: string, stem: string -> string)
    requires DropXY(p) == DropXY(q)
    ensures ConvertPhraseToPath(p, stem) == ConvertPhraseToPath(q, stem)
  {
    assert PhraseWords(p) == PhraseWords(q);
  }

  /** Translation only ever sees the phrase with its slot letters removed. */
  lemma ConvertIdempotentInput(phrase: string, stem: string -> string)
    ensures ConvertPhraseToPath(DropXY(phrase), stem) == ConvertPhraseToPath(phrase, stem)
  {
    DropXYKeeps(DropXY(phrase));
    SameWords(DropXY(phrase), phrase, stem);
  }

  lemma InterleaveThree(a: string, b: string, c: string, r1: string, r2: string)
    ensures Interleave([a, b, c], [r1, r2]) == a + ":" + r1 + ":" + b + ":" + r2 + ":" + c
  {
    assert [a, b, c][1..] == [b, c] && [r1, r2][1..] == [r2];
    assert [b, c][1..] == [c] && [r2][1..] == [];
    assert Interleave([c], []) == c;
    assert Interleave([b, c], [r2]) == Link(b, r2) + c;
    assert Interleave([a, b, c], [r1, r2]) == Link(a, r1) + (Link(b, r2) + c);
  }

  lemma InterleaveFour(a: string, b: string, c: string, d: string, r1: string, r2: string, r3: string)
    ensures Interleave([a, b, c, d], [r1, r2, r3])
      == a + ":" + r1 + ":" + b + ":" + r2 + ":" + c + ":" + r3 + ":" + d
  {
    assert [a, b, c, d][1..] == [b, c, d] && [r1, r2, r3][1..] == [r2, r3];
    InterleaveThree(b, c, d, r2, r3);
    assert Interleave([a, b, c, d], [r1, r2, r3]) == Link(a, r1) + Interleave([b, c, d], [r2, r3]);
  }

  /** The active template spelled out as the renderer joins it. */
  lemma ActiveSpelled(x: string)
    ensures "N" + ":" + "<nsubj" + ":" + ("V:" + x) + ":" + ">dobj" + ":" + "N" == ActivePath(x)
  {
  }

  /** The prepositional template spelled out as the renderer joins it. */
  lemma PrepSpelled(x: string, w: string)
    ensures "N" + ":" + ("<" + "nsubj") + ":" + ("V:" + x) + ":" + (">" + "prep") + ":" + ("P:" + w)
      + ":" + (">" + "pobj") + ":" + "N" == PrepPath(x, w)
  {
  }

  /** The passive template spelled out as the renderer joins it. */
  lemma PassiveSpelled(x: string)
    ensures "N" + ":" + ("<" + "nsubjpass") + ":" + ("V:" + x) + ":" + (">" + "agent") + ":"
      + ("P:" + "by") + ":" + (">" + "pobj") + ":" + "N" == PassivePath(x)
  {
    Regroup("N" + ":" + ("<" + "nsubjpass") + ":", "V:", x,
      ":", ">" + "agent", ":", "P:" + "by", ":", ">" + "pobj", ":", "N");
    PassiveHead();
    PassiveTail();
  }

  lemma Regroup(a: string, b: string, x: string,
                c1: string, c2: string, c3: string, c4: string, c5: string, c6: string, c7: string, c8: string)
    ensures a + (b + x) + c1 + c2 + c3 + c4 + c5 + c6 + c7 + c8
      == (a + b) + x + (c1 + c2 + c3 + c4 + c5 + c6 + c7 + c8)
  {
  }

  lemma PassiveHead()
    ensures "N" + ":" + ("<" + "nsubjpass") + ":" + "V:" == "N:<nsubjpass:V:"
  {
  }

  lemma PassiveTail()
    ensures ":" + (">" + "agent") + ":" + ("P:" + "by") + ":" + (">" + "pobj") + ":" + "N"
      == ":>agent:P:by:>pobj:N"
  {
  }

  /** Subject, verb, preposition and the preposition's object render as four segments
      joined by the subject's, the preposition's and the object's dependency labels. */
  lemma ClauseRender(toks: seq<Token>, s: int, v: int, p: int, o: int)
    requires 0 <= s < |toks| && 0 <= v < |toks| && 0 <= p < |toks| && 0 <= o < |toks|
    requires toks[s].head == v + 1
    requires toks[v].IsVerb() && toks[v].head != p + 1
    requires toks[p].IsPrep() && toks[p].head != o + 1 && IsLower(toks[p].word)
    ensures Render(toks, [s, v, p, o])
      == "N" + ":" + ("<" + toks[s].dep) + ":" + ("V:" + Stem(toks[v].word)) + ":"
        + (">" + toks[p].dep) + ":" + ("P:" + toks[p].word) + ":" + (">" + toks[o].dep) + ":" + "N"
  {
    var path := [s, v, p, o];
    RenderIsInterleaving(toks, path);
    var segs, rels := Segments(toks, path), Rels(toks, path);
    var stem, w := Stem(toks[v].word), toks[p].word;
    TokenClassesExclusive(toks[p]);
    assert ToLower(w) == w;
    assert segs[0] == "N" && segs[1] == "V:" + stem && segs[2] == "P:" + w && segs[3] == "N";
    assert rels[0] == Rel(toks, s, v) == "<" + toks[s].dep;
    assert rels[1] == Rel(toks, v, p) == ">" + toks[p].dep;
    assert rels[2] == Rel(toks, p, o) == ">" + toks[o].dep;
    assert segs == ["N", "V:" + stem, "P:" + w, "N"];
    assert rels == ["<" + toks[s].dep, ">" + toks[p].dep, ">" + toks[o].dep];
    InterleaveFour("N", "V:" + stem, "P:" + w, "N", "<" + toks[s].dep, ">" + toks[p].dep, ">" + toks[o].dep);
  }

  /** The active template is what the extractor renders for a subject noun, a verb and a
      direct-object noun, when the script's stemmer agrees with the Java one. */
  lemma ActiveMatchesRender(toks: seq<Token>, s: int, v: int, o: int)
    requires 0 <= s < |toks| && 0 <= v < |toks| && 0 <= o < |toks|
    requires toks[s].head == v + 1 && toks[s].dep == "nsubj"
    requires toks[v].IsVerb() && toks[v].head != o + 1
    requires toks[o].dep == "dobj"
    ensures Render(toks, [s, v, o]) == ActivePath(Stem(toks[v].word))
  {
    var path := [s, v, o];
    RenderIsInterleaving(toks, path);
    var segs, rels := Segments(toks, path), Rels(toks, path);
    var stem := Stem(toks[v].word);
    assert segs[0] == "N" && segs[1] == "V:" + stem && segs[2] == "N";
    assert rels[0] == Rel(toks, s, v) == "<nsubj";
    assert rels[1] == Rel(toks, v, o) == ">dobj";
    assert segs == ["N", "V:" + stem, "N"] && rels == ["<nsubj", ">dobj"];
    InterleaveThree("N", "V:" + stem, "N", "<nsubj", ">dobj");
    ActiveSpelled(stem);
  }

  /** The prepositional template is what the extractor renders for subject, verb,
      preposition and its object, when the preposition is written in lower case. */
  lemma PrepMatchesRender(toks: seq<Token>, s: int, v: int, p: int, o: int)
    requires 0 <= s < |toks| && 0 <= v < |toks| && 0 <= p < |toks| && 0 <= o < |toks|
    requires toks[s].head == v + 1 && toks[s].dep == "nsubj"
    requires toks[v].IsVerb() && toks[v].head != p + 1
    requires toks[p].IsPrep() && toks[p].dep == "prep" && toks[p].head != o + 1
    requires IsLower(toks[p].word)
    requires toks[o].dep == "pobj"
    ensures Render(toks, [s, v, p, o]) == PrepPath(Stem(toks[v].word), toks[p].word)
  {
    ClauseRender(toks, s, v, p, o);
    PrepSpelled(Stem(toks[v].word), toks[p].word);
  }

  /** The passive template is what the extractor renders for a passive subject, a verb,
      the agent `by` and its object. */
  lemma PassiveMatchesRender(toks: seq<Token>, s: int, v: int, b: int, o: int)
    requires 0 <= s < |toks| && 0 <= v < |toks| && 0 <= b < |toks| && 0 <= o < |toks|
    requires toks[s].head == v + 1 && toks[s].dep == "nsubjpass"
    requires toks[v].IsVerb() && toks[v].head != b + 1
    requires toks[b].IsPrep() && toks[b].word == "by" && toks[b].dep == "agent"
    requires toks[b].head != o + 1
    requires toks[o].dep == "pobj"
    ensures Render(toks, [s, v, b, o]) == PassivePath(Stem(toks[v].word))
  {
    assert IsLower(toks[b].word);
    ClauseRender(toks, s, v, b, o);
    PassiveSpelled(Stem(toks[v].word));
  }

  /** A one-word phrase whose verb the script's stemmer `st` maps to the extractor's stem of
      the clause's verb translates to the path the extractor renders for subject, verb and
      direct object. */
  lemma ConvertActive(phrase: string, st: string -> string, toks: seq<Token>, s: int, v: int, o: int)
    requires 0 <= s < |toks| && 0 <= v < |toks| && 0 <= o < |toks|
    requires toks[s].head == v + 1 && toks[s].dep == "nsubj"
    requires toks[v].IsVerb() && toks[v].head != o + 1
    requires toks[o].dep == "dobj"
    requires |PhraseWords(phrase)| == 1 && st(PhraseWords(phrase)[0]) == Stem(toks[v].word)
    ensures ConvertPhraseToPath(phrase, st) == Some(Render(toks, [s, v, o]))
  {
    ConvertCases(phrase, st);
    ActiveMatchesRender(toks, s, v, o);
  }

  /** A verb-and-preposition phrase whose verb `st` maps to the extractor's stem translates
      to the path the extractor renders for subject, verb, that preposition and its object. */
  lemma ConvertPrep(phrase: string, st: string -> string, toks: seq<Token>, s: int, v: int, p: int, o: int)
    requires 0 <= s < |toks| && 0 <= v < |toks| && 0 <= p < |toks| && 0 <= o < |toks|
    requires toks[s].head == v + 1 && toks[s].dep == "nsubj"
    requires toks[v].IsVerb() && toks[v].head != p + 1
    requires toks[p].IsPrep() && toks[p].dep == "prep" && toks[p].head != o + 1
    requires IsLower(toks[p].word)
    requires toks[o].dep == "pobj"
    requires var words := PhraseWords(phrase);
      |words| == 2 && words[1] != "by" && words[1] == toks[p].word && st(words[0]) == Stem(toks[v].word)
    ensures ConvertPhraseToPath(phrase, st) == Some(Render(toks, [s, v, p, o]))
  {
    ConvertCases(phrase, st);
    PrepMatchesRender(toks, s, v, p, o);
  }

  /** A verb-and-`by` phrase whose verb `st` maps to the extractor's stem translates to the
      path the extractor renders for a passive subject, the verb, the agent `by` and its
      object. */
  lemma ConvertPassive(phrase: string, st: string -> string, toks: seq<Token>, s: int, v: int, b: int, o: int)
    requires 0 <= s < |toks| && 0 <= v < |toks| && 0 <= b < |toks| && 0 <= o < |toks|
    requires toks[s].head == v + 1 && toks[s].dep == "nsubjpass"
    requires toks[v].IsVerb() && toks[v].head != b + 1
    requires toks[b].IsPrep() && toks[b].word == "by" && toks[b].dep == "agent"
    requires toks[b].head != o + 1
    requires toks[o].dep == "pobj"
    requires var words := PhraseWords(phrase);
      |words| == 2 && words[1] == "by" && st(words[0]) == Stem(toks[v].word)
    ensures ConvertPhraseToPath(phrase, st) == Some(Render(toks, [s, v, b, o]))
  {
    ConvertCases(phrase, st);
    PassiveMatchesRender(toks, s, v, b, o);
  }

  // ---------------------------------------------------------------------------
  // normalize_pair
  // ---------------------------------------------------------------------------

  type Pair = (string, string)

  /** `tuple(sorted((p1, p2)))`; Python orders strings by code point, as `Compare` does. */
  function NormalizePair(a: string, b: string): Pair {
    if Compare(a, b) <= 0 then (a, b) else (b, a)
  }

  /** The normalised pair holds the same two paths, in ascending order, and does not
      depend on the order they were given in. */
  lemma NormalizePairSorted(a: string, b: string)
    ensures var r := NormalizePair(a, b);
      && Compare(r.0, r.1) <= 0
      && multiset{r.0, r.1} == multiset{a, b}
      && r == NormalizePair(b, a)
  {
    CompareAntisymmetric(a, b);
    CompareZeroIff(a, b);
  }

  // ---------------------------------------------------------------------------
  // get_score_map
  // ---------------------------------------------------------------------------

  type Scored = (Pair, real)

  predicate Listed(system: seq<Scored>, p: Pair) {
    exists i :: 0 <= i < |system| && system[i].0 == p
  }

  /** `score_map` after the loop over `system`: a pair is entered when it is new or when
      its score beats the one stored. */
  function ScoreMapOf(system: seq<Scored>): map<Pair, real> {
    if system == [] then map[]
    else
      var m := ScoreMapOf(system[..|system| - 1]);
      var (pair, score) := system[|system| - 1];
      if pair !in m || score > m[pair] then m[pair := score] else m
  }

  /** `score_map.get(pair, 0.0)`. */
  function Lookup(m: map<Pair, real>, p: Pair): real {
    if p in m then m[p] else 0.0
  }

  /** The map holds exactly the listed pairs, each with the highest score listed for it. */
  lemma {:induction false} ScoreMapMax(system: seq<Scored>)
    ensures var m := ScoreMapOf(system);
      && (forall p :: p in m <==> Listed(system, p))
      && (forall i :: 0 <= i < |system| ==> system[i].0 in m && system[i].1 <= m[system[i].0])
      && (forall p :: p in m ==>
            exists i :: 0 <= i < |system| && system[i].0 == p && system[i].1 == m[p])
  {
    if system != [] {
      var last := |system| - 1;
      var init := system[..last];
      ScoreMapMax(init);
      assert forall i :: 0 <= i < last ==> init[i] == system[i];
      var m0, m := ScoreMapOf(init), ScoreMapOf(system);
      forall p ensures p in m <==> Listed(system, p) {
        if Listed(system, p) {
          var i :| 0 <= i < |system| && system[i].0 == p;
          if i < last {
            assert Listed(init, p);
          }
        }
        if p in m && p != system[last].0 {
          assert p in m0;
          var i :| 0 <= i < last && init[i].0 == p;
          assert system[i].0 == p;
        }
      }
      forall p | p in m
        ensures exists i :: 0 <= i < |system| && system[i].0 == p && system[i].1 == m[p]
      {
        if p == system[last].0 && m[p] == system[last].1 {
          assert system[last].0 == p && system[last].1 == m[p];
        } else {
          assert p in m0 && m[p] == m0[p];
          var i :| 0 <= i < last && init[i].0 == p && init[i].1 == m0[p];
          assert system[i].0 == p && system[i].1 == m[p];
        }
      }
    }
  }

  /** `get_score_map`: the loop computes the map of highest scores. */
  method GetScoreMap(system: seq<Scored>) returns (m: map<Pair, real>)
    ensures m == ScoreMapOf(system)
    ensures forall p :: p in m <==> Listed(system, p)
    ensures forall i :: 0 <= i < |system| ==> system[i].0 in m && system[i].1 <= m[system[i].0]
  {
    m := map[];
    for k := 0 to |system|
      invariant m == ScoreMapOf(system[..k])
    {
      var (pair, score) := system[k];
      assert system[..k + 1][..k] == system[..k];
      if pair !in m || score > m[pair] {
        m := m[pair := score];
      }
    }
    assert system[..|system|] == system;
    ScoreMapMax(system);
  }

  // ---------------------------------------------------------------------------
  // The running counts of find_optimal_threshold and calculate_pr_curve_data
  // ---------------------------------------------------------------------------

  /** `(tp, fp)` after walking `s`: a pair in `pos` counts as a hit, else one in `neg` as a
      false alarm, and an unlabelled pair counts for nothing. */
  function Tally(s: seq<Scored>, pos: set<Pair>, neg: set<Pair>): (nat, nat) {
    if s == [] then (0, 0)
    else
      var (tp, fp) := Tally(s[..|s| - 1], pos, neg);
      var p := s[|s| - 1].0;
      if p in pos then (tp + 1, fp) else if p in neg then (tp, fp + 1) else (tp, fp)
  }

  /** The number of entries of `s` whose pair is labelled either way. */
  function Labelled(s: seq<Scored>, pos: set<Pair>, neg: set<Pair>): nat {
    if s == [] then 0
    else Labelled(s[..|s| - 1], pos, neg) + (if s[|s| - 1].0 in pos + neg then 1 else 0)
  }

  lemma {:induction false} TallyPartition(s: seq<Scored>, pos: set<Pair>, neg: set<Pair>)
    ensures Tally(s, pos, neg).0 + Tally(s, pos, neg).1 == Labelled(s, pos, neg)
  {
    if s != [] {
      TallyPartition(s[..|s| - 1], pos, neg);
    }
  }

  lemma TallySnoc(s: seq<Scored>, k: int)
    requires 0 <= k < |s|
    ensures s[..k + 1][..k] == s[..k] && s[..k + 1][k] == s[k]
  {
  }

  function Precision(tp: nat, fp: nat): real {
    if tp + fp > 0 then tp as real / (tp + fp) as real else 0.0
  }

  function Recall(tp: nat, totalPos: nat): real {
    if totalPos > 0 then tp as real / totalPos as real else 0.0
  }

  function F1(prec: real, rec: real): real {
    if prec + rec > 0.0 then 2.0 * prec * rec / (prec + rec) else 0.0
  }

  /** A count that does not exceed its total gives a ratio between 0 and 1: precision, whose
      true positives are counted among the true and false positives. */
  lemma RatioBounds(a: nat, b: nat)
    requires a <= b && b > 0
    ensures 0.0 <= a as real / b as real <= 1.0
  {
  }

  /** Recall counts output entries, not distinct pairs: a gold positive listed twice counts
      twice, and recall then exceeds 1. Job 3 writes one line per pair key, so the system
      output holds no duplicates in practice. */
  lemma RecallCountsEntries(a: string, b: string)
    ensures var (tp, fp) := Tally([((a, b), 1.0), ((a, b), 1.0)], {(a, b)}, {});
      tp == 2 && fp == 0 && Recall(tp, 1) == 2.0
  {
    var e: Scored := ((a, b), 1.0);
    var s: seq<Scored> := [e, e];
    assert s[..1] == [e] && [e][..0] == [];
    assert Tally([], {(a, b)}, {}) == (0, 0);
    assert Tally([e], {(a, b)}, {}) == (1, 0);
    assert Tally(s, {(a, b)}, {}) == (2, 0);
  }

  lemma F1NonNegative(prec: real, rec: real)
    requires prec >= 0.0 && rec >= 0.0
    ensures F1(prec, rec) >= 0.0
  {
    if prec + rec > 0.0 {
      assert 2.0 * prec * rec >= 0.0;
    }
  }

  /** The F1 score right after the `i`-th entry, over the pairs seen so far. */
  function F1At(s: seq<Scored>, i: int, pos: set<Pair>, neg: set<Pair>): real
    requires 0 <= i < |s|
  {
    var (tp, fp) := Tally(s[..i + 1], pos, neg);
    F1(Precision(tp, fp), Recall(tp, |pos|))
  }

  /** Precision, recall and F1 of the counts, as the loop body computes them; never negative,
      so the first labelled entry always beats the initial best of -1. */
  method ScoreCounts(tp: nat, fp: nat, totalPos: nat) returns (f1: real)
    ensures f1 == F1(Precision(tp, fp), Recall(tp, totalPos)) && f1 >= 0.0
  {
    var prec := if tp + fp > 0 then tp as real / (tp + fp) as real else 0.0;
    var rec := if totalPos > 0 then tp as real / totalPos as real else 0.0;
    f1 := if prec + rec > 0.0 then 2.0 * prec * rec / (prec + rec) else 0.0;
    if tp + fp > 0 {
      RatioBounds(tp, tp + fp);
    }
    if totalPos > 0 {
      assert rec >= 0.0;
    }
    F1NonNegative(prec, rec);
  }

  /** `find_optimal_threshold`: the score of the first labelled entry whose F1 is the
      highest, or `0.0` when no entry is labelled. */
  method FindOptimalThreshold(system: seq<Scored>, pos: set<Pair>, neg: set<Pair>)
    returns (thresh: real, ghost best: int)
    ensures (forall i :: 0 <= i < |system| ==> system[i].0 !in pos + neg) ==> thresh == 0.0
    ensures (exists i :: 0 <= i < |system| && system[i].0 in pos + neg) ==>
      && 0 <= best < |system| && system[best].0 in pos + neg && thresh == system[best].1
      && (forall j :: 0 <= j < |system| && system[j].0 in pos + neg ==>
            F1At(system, j, pos, neg) <= F1At(system, best, pos, neg))
      && (forall j :: 0 <= j < best && system[j].0 in pos + neg ==>
            F1At(system, j, pos, neg) < F1At(system, best, pos, neg))
  {
    var bestF1 := -1.0;
    thresh, best := 0.0, -1;
    var tp, fp := 0, 0;
    for k := 0 to |system|
      invariant (tp, fp) == Tally(system[..k], pos, neg)
      invariant best == -1 ==>
        && thresh == 0.0 && bestF1 == -1.0
        && forall j :: 0 <= j < k ==> system[j].0 !in pos + neg
      invariant best != -1 ==>
        && 0 <= best < k && system[best].0 in pos + neg && thresh == system[best].1
        && bestF1 == F1At(system, best, pos, neg)
        && (forall j :: 0 <= j < k && system[j].0 in pos + neg ==> F1At(system, j, pos, neg) <= bestF1)
        && (forall j :: 0 <= j < best && system[j].0 in pos + neg ==> F1At(system, j, pos, neg) < bestF1)
    {
      TallySnoc(system, k);
      var (pair, score) := system[k];
      if pair in pos {
        tp := tp + 1;
      } else if pair in neg {
        fp := fp + 1;
      } else {
        continue;
      }
      var f1 := ScoreCounts(tp, fp, |pos|);
      assert f1 == F1At(system, k, pos, neg);
      if f1 > bestF1 {
        bestF1, thresh, best := f1, score, k;
      }
    }
    assert system[..|system|] == system;
  }

  /** The curve after walking `s`: one (recall, precision) point per labelled entry. */
  function Curve(s: seq<Scored>, pos: set<Pair>, neg: set<Pair>): seq<(real, real)> {
    if s == [] then []
    else
      var (tp, fp) := Tally(s, pos, neg);
      Curve(s[..|s| - 1], pos, neg)
        + (if s[|s| - 1].0 in pos + neg then [(Recall(tp, |pos|), Precision(tp, fp))] else [])
  }

  /** One point per labelled entry, and every precision between 0 and 1. */
  lemma {:induction false} CurveShape(s: seq<Scored>, pos: set<Pair>, neg: set<Pair>)
    ensures |Curve(s, pos, neg)| == Labelled(s, pos, neg)
    ensures forall k :: 0 <= k < |Curve(s, pos, neg)| ==> 0.0 <= Curve(s, pos, neg)[k].1 <= 1.0
  {
    if s != [] {
      CurveShape(s[..|s| - 1], pos, neg);
      var (tp, fp) := Tally(s, pos, neg);
      if s[|s| - 1].0 in pos + neg {
        TallyPartition(s, pos, neg);
        assert tp + fp > 0 by {
          assert Tally(s, pos, neg).0 > Tally(s[..|s| - 1], pos, neg).0
            || Tally(s, pos, neg).1 > Tally(s[..|s| - 1], pos, neg).1;
        }
        RatioBounds(tp, tp + fp);
      }
    }
  }

  /** `calculate_pr_curve_data`: both lists are filled in step, one entry per labelled pair. */
  method PrCurve(system: seq<Scored>, pos: set<Pair>, neg: set<Pair>)
    returns (recalls: seq<real>, precisions: seq<real>)
    ensures |recalls| == |precisions| == |Curve(system, pos, neg)|
    ensures forall k :: 0 <= k < |recalls| ==>
      (recalls[k], precisions[k]) == Curve(system, pos, neg)[k]
  {
    recalls, precisions := [], [];
    var tp, fp := 0, 0;
    for k := 0 to |system|
      invariant (tp, fp) == Tally(system[..k], pos, neg)
      invariant |recalls| == |precisions| == |Curve(system[..k], pos, neg)|
      invariant forall j :: 0 <= j < |recalls| ==>
        (recalls[j], precisions[j]) == Curve(system[..k], pos, neg)[j]
    {
      TallySnoc(system, k);
      var (pair, _) := system[k];
      if pair in pos {
        tp := tp + 1;
      } else if pair in neg {
        fp := fp + 1;
      } else {
        continue;
      }
      if tp + fp > 0 {
        precisions := precisions + [tp as real / (tp + fp) as real];
        recalls := recalls + [if |pos| > 0 then tp as real / |pos| as real else 0.0];
      }
    }
    assert system[..|system|] == system;
  }

  // ---------------------------------------------------------------------------
  // print_error_analysis
  // ---------------------------------------------------------------------------

  /** How many examples of each kind are listed. */
  const EXAMPLES := 5

  /** The first `n` elements of `xs`, or all of them when there are fewer. */
  function Take<T>(xs: seq<T>, n: nat): (r: seq<T>)
    ensures |r| == if |xs| <= n then |xs| else n
    ensures r == xs[..|r|]
  {
    if |xs| <= n then xs else xs[..n]
  }

  lemma TakeSnoc<T>(xs: seq<T>, x: T, n: nat)
    ensures Take(xs + [x], n) == if |xs| < n then Take(xs, n) + [x] else Take(xs, n)
  {
    if |xs| >= n {
      assert (xs + [x])[..n] == xs[..n];
    }
  }

  /** Once a prefix already holds `n` elements, the rest changes nothing. */
  lemma TakeLonger<T>(a: seq<T>, b: seq<T>, n: nat)
    requires a <= b && |a| >= n
    ensures Take(a, n) == Take(b, n)
  {
    assert b[..n] == a[..n];
  }

  /** `score >= threshold` when `above`, `score < threshold` otherwise. */
  predicate OnSide(e: Scored, threshold: real, above: bool) {
    if above then e.1 >= threshold else e.1 < threshold
  }

  /** The entries of `s` whose pair is a gold positive, on the given side of the threshold,
      in output order: the candidate hits (above) and misses (below). */
  function Positives(s: seq<Scored>, pos: set<Pair>, threshold: real, above: bool): seq<Scored> {
    if s == [] then []
    else
      var e := s[|s| - 1];
      Positives(s[..|s| - 1], pos, threshold, above)
        + (if e.0 in pos && OnSide(e, threshold, above) then [e] else [])
  }

  /** An entry at or above the threshold following `init` is a candidate false alarm when
      its pair is a gold negative, unless it is a gold positive too and the hits are not full
      yet: the hit branch is tried first. */
  predicate AlarmAt(init: seq<Scored>, e: Scored, pos: set<Pair>, neg: set<Pair>, threshold: real) {
    && e.1 >= threshold && e.0 in neg
    && (e.0 !in pos || |Positives(init, pos, threshold, true)| >= EXAMPLES)
  }

  /** The candidate false alarms of `s`, in output order. */
  function Alarms(s: seq<Scored>, pos: set<Pair>, neg: set<Pair>, threshold: real): seq<Scored> {
    if s == [] then []
    else
      var init := s[..|s| - 1];
      Alarms(init, pos, neg, threshold)
        + (if AlarmAt(init, s[|s| - 1], pos, neg, threshold) then [s[|s| - 1]] else [])
  }

  /** The gold positives, in iteration order, that the system never scored, with score 0. */
  function Unscored(order: seq<Pair>, m: map<Pair, real>): seq<Scored> {
    if order == [] then []
    else
      var p := order[|order| - 1];
      Unscored(order[..|order| - 1], m) + (if p !in m then [(p, 0.0)] else [])
  }

  /** The gold negatives, in iteration order, whose score (0 when unscored) is below the
      threshold, with that score. */
  function Quiet(order: seq<Pair>, m: map<Pair, real>, threshold: real): seq<Scored> {
    if order == [] then []
    else
      var n := order[|order| - 1];
      Quiet(order[..|order| - 1], m, threshold) + (if Lookup(m, n) < threshold then [(n, Lookup(m, n))] else [])
  }

  /** The misses after the top-up: unchanged when five are listed already, otherwise
      followed by as many unscored positives as still fit. */
  function Fill(fns0: seq<Scored>, order: seq<Pair>, m: map<Pair, real>): seq<Scored> {
    if |fns0| >= EXAMPLES then fns0 else fns0 + Take(Unscored(order, m), EXAMPLES - |fns0|)
  }

  lemma {:induction false} PositivesMembers(s: seq<Scored>, pos: set<Pair>, threshold: real, above: bool)
    ensures forall e :: e in Positives(s, pos, threshold, above) <==>
      e in s && e.0 in pos && OnSide(e, threshold, above)
  {
    if s != [] {
      PositivesMembers(s[..|s| - 1], pos, threshold, above);
      assert s == s[..|s| - 1] + [s[|s| - 1]];
    }
  }

  lemma {:induction false} PositivesPrefix(s: seq<Scored>, k: int, pos: set<Pair>, threshold: real, above: bool)
    requires 0 <= k <= |s|
    ensures Positives(s[..k], pos, threshold, above) <= Positives(s, pos, threshold, above)
    decreases |s|
  {
    if k == |s| {
      assert s[..k] == s;
    } else {
      var init := s[..|s| - 1];
      assert init[..k] == s[..k];
      PositivesPrefix(init, k, pos, threshold, above);
    }
  }

  /** Every candidate false alarm is an entry at or above the threshold with a gold negative
      pair, and every entry that qualifies at its position is one. */
  lemma {:induction false} AlarmsMembers(s: seq<Scored>, pos: set<Pair>, neg: set<Pair>, threshold: real)
    ensures forall e :: e in Alarms(s, pos, neg, threshold) ==> e in s && e.0 in neg && e.1 >= threshold
    ensures forall i :: 0 <= i < |s| && AlarmAt(s[..i], s[i], pos, neg, threshold) ==>
      s[i] in Alarms(s, pos, neg, threshold)
  {
    if s != [] {
      var last := |s| - 1;
      var init := s[..last];
      AlarmsMembers(init, pos, neg, threshold);
      assert s == init + [s[last]];
      forall i | 0 <= i < last && AlarmAt(s[..i], s[i], pos, neg, threshold)
        ensures s[i] in Alarms(s, pos, neg, threshold)
      {
        assert init[..i] == s[..i] && init[i] == s[i];
      }
    }
  }

  lemma {:induction false} AlarmsPrefix(s: seq<Scored>, k: int, pos: set<Pair>, neg: set<Pair>, threshold: real)
    requires 0 <= k <= |s|
    ensures Alarms(s[..k], pos, neg, threshold) <= Alarms(s, pos, neg, threshold)
    decreases |s|
  {
    if k == |s| {
      assert s[..k] == s;
    } else {
      var init := s[..|s| - 1];
      assert init[..k] == s[..k];
      AlarmsPrefix(init, k, pos, neg, threshold);
    }
  }

  lemma {:induction false} UnscoredMembers(order: seq<Pair>, m: map<Pair, real>)
    ensures forall e :: e in Unscored(order, m) <==> e.0 in order && e.0 !in m && e.1 == 0.0
  {
    if order != [] {
      UnscoredMembers(order[..|order| - 1], m);
      assert order == order[..|order| - 1] + [order[|order| - 1]];
    }
  }

  lemma {:induction false} UnscoredPrefix(order: seq<Pair>, k: int, m: map<Pair, real>)
    requires 0 <= k <= |order|
    ensures Unscored(order[..k], m) <= Unscored(order, m)
    decreases |order|
  {
    if k == |order| {
      assert order[..k] == order;
    } else {
      var init := order[..|order| - 1];
      assert init[..k] == order[..k];
      UnscoredPrefix(init, k, m);
    }
  }

  lemma {:induction false} QuietMembers(order: seq<Pair>, m: map<Pair, real>, threshold: real)
    ensures forall e :: e in Quiet(order, m, threshold) <==>
      e.0 in order && e.1 == Lookup(m, e.0) && e.1 < threshold
  {
    if order != [] {
      QuietMembers(order[..|order| - 1], m, threshold);
      assert order == order[..|order| - 1] + [order[|order| - 1]];
    }
  }

  lemma {:induction false} QuietPrefix(order: seq<Pair>, k: int, m: map<Pair, real>, threshold: real)
    requires 0 <= k <= |order|
    ensures Quiet(order[..k], m, threshold) <= Quiet(order, m, threshold)
    decreases |order|
  {
    if k == |order| {
      assert order[..k] == order;
    } else {
      var init := order[..|order| - 1];
      assert init[..k] == order[..k];
      QuietPrefix(init, k, m, threshold);
    }
  }

  lemma PositivesStep(s: seq<Scored>, k: int, pos: set<Pair>, threshold: real, above: bool)
    requires 0 <= k < |s|
    ensures Positives(s[..k + 1], pos, threshold, above)
      == Positives(s[..k], pos, threshold, above) + (if s[k].0 in pos && OnSide(s[k], threshold, above) then [s[k]] else [])
  {
    assert s[..k + 1][..k] == s[..k];
  }

  lemma AlarmsStep(s: seq<Scored>, k: int, pos: set<Pair>, neg: set<Pair>, threshold: real)
    requires 0 <= k < |s|
    ensures Alarms(s[..k + 1], pos, neg, threshold)
      == Alarms(s[..k], pos, neg, threshold) + (if AlarmAt(s[..k], s[k], pos, neg, threshold) then [s[k]] else [])
  {
    assert s[..k + 1][..k] == s[..k];
  }

  lemma UnscoredStep(order: seq<Pair>, k: int, m: map<Pair, real>)
    requires 0 <= k < |order|
    ensures Unscored(order[..k + 1], m) == Unscored(order[..k], m) + (if order[k] !in m then [(order[k], 0.0)] else [])
  {
    assert order[..k + 1][..k] == order[..k];
  }

  lemma QuietStep(order: seq<Pair>, k: int, m: map<Pair, real>, threshold: real)
    requires 0 <= k < |order|
    ensures Quiet(order[..k + 1], m, threshold)
      == Quiet(order[..k], m, threshold) + (if Lookup(m, order[k]) < threshold then [(order[k], Lookup(m, order[k]))] else [])
  {
    assert order[..k + 1][..k] == order[..k];
  }

  /** While fewer than five misses are listed, the next unscored positive joins them. */
  lemma FillStep(fns0: seq<Scored>, order: seq<Pair>, k: int, m: map<Pair, real>)
    requires 0 <= k < |order| && |Fill(fns0, order[..k], m)| < EXAMPLES
    ensures Fill(fns0, order[..k + 1], m) == Fill(fns0, order[..k], m) + (if order[k] !in m then [(order[k], 0.0)] else [])
  {
    UnscoredStep(order, k, m);
    TakeSnoc(Unscored(order[..k], m), (order[k], 0.0), EXAMPLES - |fns0|);
  }

  /** Once five misses are listed, the rest of the positives add nothing. */
  lemma FillDone(fns0: seq<Scored>, order: seq<Pair>, k: int, m: map<Pair, real>)
    requires 0 <= k <= |order| && |Fill(fns0, order[..k], m)| >= EXAMPLES
    ensures Fill(fns0, order[..k], m) == Fill(fns0, order, m)
  {
    if |fns0| < EXAMPLES {
      UnscoredPrefix(order, k, m);
      TakeLonger(Unscored(order[..k], m), Unscored(order, m), EXAMPLES - |fns0|);
    }
  }

  /** One entry of the first pass: the hits (above) or misses (below) list grows by it
      while fewer than five are listed and it qualifies. */
  lemma TakePositivesStep(s: seq<Scored>, k: int, pos: set<Pair>, threshold: real, above: bool)
    requires 0 <= k < |s|
    ensures var before := Take(Positives(s[..k], pos, threshold, above), EXAMPLES);
      Take(Positives(s[..k + 1], pos, threshold, above), EXAMPLES)
        == if |before| < EXAMPLES && s[k].0 in pos && OnSide(s[k], threshold, above) then before + [s[k]] else before
  {
    PositivesStep(s, k, pos, threshold, above);
    TakeSnoc(Positives(s[..k], pos, threshold, above), s[k], EXAMPLES);
  }

  /** One entry of the first pass: the false alarms grow by it while fewer than five are
      listed and it qualifies. */
  lemma TakeAlarmsStep(s: seq<Scored>, k: int, pos: set<Pair>, neg: set<Pair>, threshold: real)
    requires 0 <= k < |s|
    ensures var before := Take(Alarms(s[..k], pos, neg, threshold), EXAMPLES);
      Take(Alarms(s[..k + 1], pos, neg, threshold), EXAMPLES)
        == if |before| < EXAMPLES && AlarmAt(s[..k], s[k], pos, neg, threshold) then before + [s[k]] else before
  {
    AlarmsStep(s, k, pos, neg, threshold);
    TakeSnoc(Alarms(s[..k], pos, neg, threshold), s[k], EXAMPLES);
  }

  /** When all three lists are full after `k` entries, the rest of the output adds nothing:
      the early exit of the first pass loses no example. */
  lemma FullStays(s: seq<Scored>, k: int, pos: set<Pair>, neg: set<Pair>, threshold: real)
    requires 0 <= k <= |s|
    requires |Positives(s[..k], pos, threshold, true)| >= EXAMPLES
    requires |Alarms(s[..k], pos, neg, threshold)| >= EXAMPLES
    requires |Positives(s[..k], pos, threshold, false)| >= EXAMPLES
    ensures Take(Positives(s[..k], pos, threshold, true), EXAMPLES) == Take(Positives(s, pos, threshold, true), EXAMPLES)
    ensures Take(Alarms(s[..k], pos, neg, threshold), EXAMPLES) == Take(Alarms(s, pos, neg, threshold), EXAMPLES)
    ensures Take(Positives(s[..k], pos, threshold, false), EXAMPLES) == Take(Positives(s, pos, threshold, false), EXAMPLES)
  {
    PositivesPrefix(s, k, pos, threshold, true);
    PositivesPrefix(s, k, pos, threshold, false);
    AlarmsPrefix(s, k, pos, neg, threshold);
    TakeLonger(Positives(s[..k], pos, threshold, true), Positives(s, pos, threshold, true), EXAMPLES);
    TakeLonger(Positives(s[..k], pos, threshold, false), Positives(s, pos, threshold, false), EXAMPLES);
    TakeLonger(Alarms(s[..k], pos, neg, threshold), Alarms(s, pos, neg, threshold), EXAMPLES);
  }

  /** The first pass over the ranked output: the first five hits, false alarms and misses,
      stopping once all three are full. */
  method RankedExamples(system: seq<Scored>, pos: set<Pair>, neg: set<Pair>, threshold: real)
    returns (tps: seq<Scored>, fps: seq<Scored>, fns: seq<Scored>)
    ensures tps == Take(Positives(system, pos, threshold, true), EXAMPLES)
    ensures fps == Take(Alarms(system, pos, neg, threshold), EXAMPLES)
    ensures fns == Take(Positives(system, pos, threshold, false), EXAMPLES)
  {
    tps, fps, fns := [], [], [];
    for k := 0 to |system|
      invariant tps == Take(Positives(system[..k], pos, threshold, true), EXAMPLES)
      invariant fps == Take(Alarms(system[..k], pos, neg, threshold), EXAMPLES)
      invariant fns == Take(Positives(system[..k], pos, threshold, false), EXAMPLES)
    {
      var (pair, score) := system[k];
      TakePositivesStep(system, k, pos, threshold, true);
      TakeAlarmsStep(system, k, pos, neg, threshold);
      TakePositivesStep(system, k, pos, threshold, false);
      if score >= threshold {
        if pair in pos && |tps| < EXAMPLES {
          tps := tps + [(pair, score)];
        } else if pair in neg && |fps| < EXAMPLES {
          fps := fps + [(pair, score)];
        }
      } else {
        if pair in pos && |fns| < EXAMPLES {
          fns := fns + [(pair, score)];
        }
      }
      if |tps| >= EXAMPLES && |fps| >= EXAMPLES && |fns| >= EXAMPLES {
        FullStays(system, k + 1, pos, neg, threshold);
        break;
      }
    }
    assert system[..|system|] == system;
  }

  /** The second pass: gold positives the system never scored join the misses with score
      0, while fewer than five misses are listed. */
  method MissingPositives(fns0: seq<Scored>, posOrder: seq<Pair>, scoreMap: map<Pair, real>)
    returns (fns: seq<Scored>)
    ensures fns == Fill(fns0, posOrder, scoreMap)
  {
    fns := fns0;
    for k := 0 to |posOrder|
      invariant fns == Fill(fns0, posOrder[..k], scoreMap)
    {
      if |fns| >= EXAMPLES {
        FillDone(fns0, posOrder, k, scoreMap);
        break;
      }
      var p := posOrder[k];
      FillStep(fns0, posOrder, k, scoreMap);
      if p !in scoreMap {
        fns := fns + [(p, 0.0)];
      }
    }
    assert posOrder[..|posOrder|] == posOrder;
  }

  /** The third pass: up to five gold negatives whose score, 0 when unscored, is below the
      threshold. */
  method TrueNegatives(negOrder: seq<Pair>, scoreMap: map<Pair, real>, threshold: real)
    returns (tns: seq<Scored>)
    ensures tns == Take(Quiet(negOrder, scoreMap, threshold), EXAMPLES)
  {
    tns := [];
    for k := 0 to |negOrder|
      invariant tns == Take(Quiet(negOrder[..k], scoreMap, threshold), EXAMPLES)
    {
      if |tns| >= EXAMPLES {
        QuietPrefix(negOrder, k, scoreMap, threshold);
        TakeLonger(Quiet(negOrder[..k], scoreMap, threshold), Quiet(negOrder, scoreMap, threshold), EXAMPLES);
        break;
      }
      var n := negOrder[k];
      var s := Lookup(scoreMap, n);
      QuietStep(negOrder, k, scoreMap, threshold);
      TakeSnoc(Quiet(negOrder[..k], scoreMap, threshold), (n, s), EXAMPLES);
      if s < threshold {
        tns := tns + [(n, s)];
      }
    }
    assert negOrder[..|negOrder|] == negOrder;
  }

  /** The four example lists. */
  datatype Report = Report(tps: seq<Scored>, fps: seq<Scored>, fns: seq<Scored>, tns: seq<Scored>)

  /** What `print_error_analysis` lists, given the order in which it iterates each gold set. */
  function Examples(system: seq<Scored>, pos: set<Pair>, neg: set<Pair>,
                    posOrder: seq<Pair>, negOrder: seq<Pair>, threshold: real): Report
  {
    var m := ScoreMapOf(system);
    Report(Take(Positives(system, pos, threshold, true), EXAMPLES),
           Take(Alarms(system, pos, neg, threshold), EXAMPLES),
           Fill(Take(Positives(system, pos, threshold, false), EXAMPLES), posOrder, m),
           Take(Quiet(negOrder, m, threshold), EXAMPLES))
  }

  /** `order` visits every element of `s` exactly once, as iterating a Python set does. */
  ghost predicate Enumerates(order: seq<Pair>, s: set<Pair>) {
    && (forall p :: p in order <==> p in s)
    && (forall i, j :: 0 <= i < j < |order| ==> order[i] != order[j])
  }

  /** Every listed example belongs to its kind, no list holds more than five, and a true
      negative carries the highest score listed for its pair, or 0. */
  lemma ExamplesSound(system: seq<Scored>, pos: set<Pair>, neg: set<Pair>,
                      posOrder: seq<Pair>, negOrder: seq<Pair>, threshold: real)
    requires Enumerates(posOrder, pos) && Enumerates(negOrder, neg)
    ensures var r := Examples(system, pos, neg, posOrder, negOrder, threshold);
      && |r.tps| <= EXAMPLES && |r.fps| <= EXAMPLES && |r.fns| <= EXAMPLES && |r.tns| <= EXAMPLES
      && (forall e :: e in r.tps ==> e in system && e.0 in pos && e.1 >= threshold)
      && (forall e :: e in r.fps ==> e in system && e.0 in neg && e.1 >= threshold)
      && (forall e :: e in r.fns ==>
            e.0 in pos && ((e in system && e.1 < threshold) || (e.1 == 0.0 && !Listed(system, e.0))))
      && (forall e :: e in r.tns ==>
            e.0 in neg && e.1 < threshold && e.1 == Lookup(ScoreMapOf(system), e.0))
  {
    var m := ScoreMapOf(system);
    ScoreMapMax(system);
    PositivesMembers(system, pos, threshold, true);
    PositivesMembers(system, pos, threshold, false);
    AlarmsMembers(system, pos, neg, threshold);
    UnscoredMembers(posOrder, m);
    QuietMembers(negOrder, m, threshold);
    var fns0 := Take(Positives(system, pos, threshold, false), EXAMPLES);
    var fns := Fill(fns0, posOrder, m);
    forall e | e in fns
      ensures e.0 in pos && ((e in system && e.1 < threshold) || (e.1 == 0.0 && !Listed(system, e.0)))
    {
      if e !in fns0 {
        assert e in Take(Unscored(posOrder, m), EXAMPLES - |fns0|);
      }
    }
  }

  /** A list with fewer than five examples skipped nothing that qualified for it. */
  lemma ExamplesComplete(system: seq<Scored>, pos: set<Pair>, neg: set<Pair>,
                         posOrder: seq<Pair>, negOrder: seq<Pair>, threshold: real)
    requires Enumerates(posOrder, pos) && Enumerates(negOrder, neg)
    ensures var r := Examples(system, pos, neg, posOrder, negOrder, threshold);
      var m := ScoreMapOf(system);
      && (|r.tps| < EXAMPLES ==>
            forall i :: 0 <= i < |system| && system[i].0 in pos && system[i].1 >= threshold ==> system[i] in r.tps)
      && (|r.fps| < EXAMPLES ==>
            forall i :: 0 <= i < |system| && AlarmAt(system[..i], system[i], pos, neg, threshold) ==> system[i] in r.fps)
      && (|r.fns| < EXAMPLES ==>
            && (forall i :: 0 <= i < |system| && system[i].0 in pos && system[i].1 < threshold ==> system[i] in r.fns)
            && (forall p :: p in pos && !Listed(system, p) ==> (p, 0.0) in r.fns))
      && (|r.tns| < EXAMPLES ==> forall p :: p in neg && Lookup(m, p) < threshold ==> (p, Lookup(m, p)) in r.tns)
  {
    var m := ScoreMapOf(system);
    ScoreMapMax(system);
    PositivesMembers(system, pos, threshold, true);
    PositivesMembers(system, pos, threshold, false);
    AlarmsMembers(system, pos, neg, threshold);
    UnscoredMembers(posOrder, m);
    QuietMembers(negOrder, m, threshold);
    var fns0 := Take(Positives(system, pos, threshold, false), EXAMPLES);
    var fns := Fill(fns0, posOrder, m);
    if |fns| < EXAMPLES {
      assert fns == fns0 + Unscored(posOrder, m);
      forall i | 0 <= i < |system| && system[i].0 in pos && system[i].1 < threshold
        ensures system[i] in fns
      {
        assert system[i] in fns0;
      }
      forall p | p in pos && !Listed(system, p)
        ensures (p, 0.0) in fns
      {
        assert (p, 0.0) in Unscored(posOrder, m);
      }
    }
  }

  /** `print_error_analysis`: the four example lists, `posOrder` and `negOrder` being the
      orders in which it iterates the gold sets. */
  method ErrorAnalysis(system: seq<Scored>, pos: set<Pair>, neg: set<Pair>,
                       posOrder: seq<Pair>, negOrder: seq<Pair>, threshold: real)
    returns (tps: seq<Scored>, fps: seq<Scored>, fns: seq<Scored>, tns: seq<Scored>)
    requires Enumerates(posOrder, pos) && Enumerates(negOrder, neg)
    ensures Report(tps, fps, fns, tns) == Examples(system, pos, neg, posOrder, negOrder, threshold)
  {
    var scoreMap := GetScoreMap(system);
    var fns0;
    tps, fps, fns0 := RankedExamples(system, pos, neg, threshold);
    fns := MissingPositives(fns0, posOrder, scoreMap);
    tns := TrueNegatives(negOrder, scoreMap, threshold);
  }
}
