/**
 * One annotated token of a syntactic n-gram, and the suffix-stripping stemmer that
 * `PorterStemmer.stem` actually implements (the short-word rule and five suffix rules, not the classical Porter algorithm).
 */
module Tokens {
  import opened Strings

  /** `word/POS/DEP/HEAD`; `head` is 1-based, so `head - 1` is the parent's index. */
  datatype Token = Token(word: string, pos: string, dep: string, head: int)
  {
    predicate IsNoun() {
      StartsWith(pos, "N")
    }

    predicate IsVerb() {
      StartsWith(pos, "V")
    }

    predicate IsPrep() {
      pos == "IN" || pos == "TO"
    }
  }

  /** The classes are exclusive: a tag is a noun, a verb, a preposition, or none of them. */
  lemma TokenClassesExclusive(t: Token)
    ensures !(t.IsNoun() && t.IsVerb())
    ensures t.IsPrep() ==> !t.IsNoun() && !t.IsVerb()
  {
  }

  /** The auxiliary and modal verbs that do not make a path informative. */
  const AUX: set<string> := {
    "be", "am", "is", "are", "was", "were", "been", "being",
    "do", "does", "did", "have", "has", "had", "will", "would",
    "shall", "should", "can", "could", "may", "might", "must"
  }

  /** A verb whose lower-cased word is not an auxiliary. */
  predicate IsContentVerb(t: Token) {
    t.IsVerb() && ToLower(t.word) !in AUX
  }

  /** `PorterStemmer.stem`: lower-case, then the short-word rule (words of at most two
      characters stay as they are) and the first of the five suffix rules that matches
      (sses, ies, s-but-not-ss, ing, ed). */
  function Stem(w: string): string
  {
    var s := ToLower(w);
    if |s| <= 2 then s
    else if EndsWith(s, "sses") then s[..|s| - 2]
    else if EndsWith(s, "ies") then s[..|s| - 2] + "i"
    else if EndsWith(s, "s") && !EndsWith(s, "ss") then s[..|s| - 1]
    else if EndsWith(s, "ing") then s[..|s| - 3]
    else if EndsWith(s, "ed") then s[..|s| - 2]
    else s
  }

  /** The stem is lower-case and never longer than the word. */
  lemma StemLowerAndNoLonger(w: string)
    ensures IsLower(Stem(w)) && |Stem(w)| <= |w|
  {
    var s := ToLower(w);
    ToLowerIsLower(w);
    if |s| <= 2 {
    } else if EndsWith(s, "sses") {
      LowerPrefix(s, |s| - 2);
    } else if EndsWith(s, "ies") {
      LowerPrefix(s, |s| - 2);
      var r := s[..|s| - 2] + "i";
      assert forall i :: 0 <= i < |r| - 1 ==> r[i] == s[..|s| - 2][i];
    } else if EndsWith(s, "s") && !EndsWith(s, "ss") {
      LowerPrefix(s, |s| - 1);
    } else if EndsWith(s, "ing") {
      LowerPrefix(s, |s| - 3);
    } else if EndsWith(s, "ed") {
      LowerPrefix(s, |s| - 2);
    }
  }

  /** Stemming introduces no character below `A` (such as a tab) that the word lacks. */
  lemma StemAvoids(w: string, c: char)
    requires c < 'A' && c !in w
    ensures c !in Stem(w)
  {
    var s := ToLower(w);
    LowerAvoids(w, c);
    if |s| > 2 {
      assert c !in s[..|s| - 1] && c !in s[..|s| - 2] && c !in s[..|s| - 3];
    }
  }

  /** Words of at most two characters are only lower-cased. */
  lemma StemShortWord(w: string)
    requires |w| <= 2
    ensures Stem(w) == ToLower(w)
  {
  }

  /** A word ending in "ss" but not in "sses" comes back unchanged but for case. */
  lemma StemKeepsDoubleS(w: string)
    requires EndsWith(ToLower(w), "ss") && !EndsWith(ToLower(w), "sses")
    ensures Stem(w) == ToLower(w)
  {
    var s := ToLower(w);
    assert s[|s| - 1] == 's' && s[|s| - 2] == 's';
    assert !EndsWith(s, "ies") by { assert "ies"[1] == 'e'; }
    assert !EndsWith(s, "ing") by { assert "ing"[2] == 'g'; }
    assert !EndsWith(s, "ed") by { assert "ed"[1] == 'd'; }
  }

  /** Only the first matching rule applies: "sses" wins over the plain "s" rule. */
  lemma StemSsesBeforeS(w: string)
    requires EndsWith(ToLower(w), "sses")
    ensures Stem(w) == ToLower(w)[..|w| - 2]
  {
  }

  /** The "ies" rule keeps the `i` and appends another one: "flies" becomes "flii". */
  lemma StemFlies()
    ensures Stem("flies") == "flii"
  {
    var s := ToLower("flies");
    assert s == "flies" by {
      assert forall i :: 0 <= i < 5 ==> !IsUpper("flies"[i]);
    }
    assert !EndsWith(s, "sses");
    assert EndsWith(s, "ies");
  }

  /** The stemmer is not idempotent: "sings" becomes "sing", which becomes "s". */
  lemma StemNotIdempotent()
    ensures Stem("sings") == "sing" && Stem("sing") == "s"
  {
    var s := ToLower("sings");
    assert s == "sings" by {
      assert forall i :: 0 <= i < 5 ==> !IsUpper("sings"[i]);
    }
    assert !EndsWith(s, "sses") && !EndsWith(s, "ies") && !EndsWith(s, "ss");
    var t := ToLower("sing");
    assert t == "sing" by {
      assert forall i :: 0 <= i < 4 ==> !IsUpper("sing"[i]);
    }
    assert !EndsWith(t, "s") && EndsWith(t, "ing");
  }
}
