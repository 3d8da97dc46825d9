/**
 * `Job1_Extraction.Map.parse`: turns the space-separated n-gram text into tokens. Each
 * piece is cut at its last three `/` characters into `word/pos/dep/head` (the word itself
 * may contain `/`); pieces with fewer than three slashes or a head that is not a Java
 * `int` are skipped.
 */
module TokenParser {
  import opened Wrappers
  import opened Strings
  import opened Tokens

  /** `s.lastIndexOf(c, end - 1)`: the last position before `end` holding `c`, or -1. */
  function LastIndexBefore(s: string, c: char, end: int): (r: int)
    requires 0 <= end <= |s|
    ensures -1 <= r < end
    decreases end
  {
    if end == 0 then -1
    else if s[end - 1] == c then end - 1
    else LastIndexBefore(s, c, end - 1)
  }

  /** The position found holds `c` and none after it does; -1 means no position holds it. */
  lemma {:induction false} LastIndexSpec(s: string, c: char, end: int)
    requires 0 <= end <= |s|
    ensures var r := LastIndexBefore(s, c, end);
      && (r >= 0 ==> s[r] == c)
      && forall i :: r < i < end ==> s[i] != c
    decreases end
  {
    if end > 0 && s[end - 1] != c {
      LastIndexSpec(s, c, end - 1);
    }
  }

  lemma LastIndexIs(s: string, c: char, end: int, k: int)
    requires 0 <= k < end <= |s| && s[k] == c
    requires forall i :: k < i < end ==> s[i] != c
    ensures LastIndexBefore(s, c, end) == k
  {
  }

  /** The positions of the last three `/` of a piece, from left to right. */
  datatype Slashes = Slashes(third: int, second: int, last: int)

  /** The three nested `lastIndexOf('/')` searches; `None` when one of them finds nothing. */
  function LastSlashes(t: string): (r: Option<Slashes>)
    ensures r.Some? ==> 0 <= r.value.third < r.value.second < r.value.last < |t|
  {
    var last := LastIndexBefore(t, '/', |t|);
    if last == -1 then None
    else
      var second := LastIndexBefore(t, '/', last);
      if second == -1 then None
      else
        var third := LastIndexBefore(t, '/', second);
        if third == -1 then None else Some(Slashes(third, second, last))
  }

  /** The token cut out at the given slashes, or `None` when the head is not an `int`. */
  function TokenAt(t: string, c: Slashes): Option<Token>
    requires 0 <= c.third < c.second < c.last < |t|
  {
    match ParseInt(t[c.last + 1..])
    case None => None
    case Some(h) => Some(Token(t[..c.third], t[c.third + 1..c.second], t[c.second + 1..c.last], h))
  }

  /** One piece of the n-gram, as the body of the tokenizer loop handles it. */
  function ParseToken(t: string): Option<Token>
  {
    match LastSlashes(t)
    case None => None
    case Some(c) => TokenAt(t, c)
  }

  /** `t` is `word/pos/dep/headStr` with no `/` in the last three fields and an `int` head. */
  ghost predicate Shaped(t: string, tok: Token, headStr: string) {
    && t == tok.word + "/" + tok.pos + "/" + tok.dep + "/" + headStr
    && '/' !in tok.pos && '/' !in tok.dep && '/' !in headStr
    && ParseInt(headStr) == Some(tok.head)
  }

  /** A string with `/` at three positions is its pieces joined by `/`. */
  lemma CutThrice(t: string, a: int, b: int, c: int)
    requires 0 <= a < b < c < |t| && t[a] == '/' && t[b] == '/' && t[c] == '/'
    ensures t == t[..a] + "/" + t[a + 1..b] + "/" + t[b + 1..c] + "/" + t[c + 1..]
  {
    assert t == t[..a] + t[a..];
    assert t[a..] == [t[a]] + t[a + 1..b] + t[b..];
    assert t[b..] == [t[b]] + t[b + 1..c] + t[c..];
    assert t[c..] == [t[c]] + t[c + 1..];
  }

  /** A slice avoids every character its positions avoid. */
  lemma NotInSlice(t: string, c: char, lo: int, hi: int)
    requires 0 <= lo <= hi <= |t|
    requires forall i :: lo <= i < hi ==> t[i] != c
    ensures c !in t[lo..hi]
  {
    assert forall i :: 0 <= i < hi - lo ==> t[lo..hi][i] == t[lo + i];
  }

  /** The slashes found hold `/` and no other position after the first of them does. */
  lemma LastSlashesSpec(t: string)
    requires LastSlashes(t).Some?
    ensures var c := LastSlashes(t).value;
      && t[c.third] == '/' && t[c.second] == '/' && t[c.last] == '/'
      && forall i :: c.third < i < |t| && i != c.second && i != c.last ==> t[i] != '/'
  {
    var last := LastIndexBefore(t, '/', |t|);
    var second := LastIndexBefore(t, '/', last);
    LastIndexSpec(t, '/', |t|);
    LastIndexSpec(t, '/', last);
    LastIndexSpec(t, '/', second);
  }

  /** A kept piece is exactly its token's fields joined by `/`. */
  lemma ParseTokenSound(t: string)
    requires ParseToken(t).Some?
    ensures exists headStr :: Shaped(t, ParseToken(t).value, headStr)
  {
    var c := LastSlashes(t).value;
    LastSlashesSpec(t);
    var third, second, last := c.third, c.second, c.last;
    var tok := ParseToken(t).value;
    var headStr := t[last + 1..];
    CutThrice(t, third, second, last);
    NotInSlice(t, '/', third + 1, second);
    NotInSlice(t, '/', second + 1, last);
    NotInSlice(t, '/', last + 1, |t|);
    assert t[last + 1..|t|] == headStr;
    assert tok.word == t[..third] && tok.pos == t[third + 1..second] && tok.dep == t[second + 1..last];
    assert ParseInt(headStr) == Some(tok.head);
    assert Shaped(t, tok, headStr);
  }

  /** Where the fields and the separators of `w/p/d/h` lie. */
  lemma JoinedPieces(w: string, p: string, d: string, h: string)
    ensures var t := w + "/" + p + "/" + d + "/" + h;
      var third, second, last := |w|, |w| + 1 + |p|, |w| + |p| + |d| + 2;
      && |t| == last + 1 + |h|
      && t[third] == '/' && t[second] == '/' && t[last] == '/'
      && t[..third] == w && t[third + 1..second] == p && t[second + 1..last] == d && t[last + 1..] == h
  {
  }

  /** The slashes of a shaped piece are the three separators. */
  lemma ShapedSlashes(t: string, tok: Token, headStr: string)
    requires Shaped(t, tok, headStr)
    ensures LastSlashes(t) == Some(Slashes(|tok.word|, |tok.word| + 1 + |tok.pos|, |tok.word| + |tok.pos| + |tok.dep| + 2))
  {
    var w, p, d := tok.word, tok.pos, tok.dep;
    JoinedPieces(w, p, d, headStr);
    var third, second, last := |w|, |w| + 1 + |p|, |w| + |p| + |d| + 2;
    SliceAvoids(t, '/', last + 1, |t|);
    SliceAvoids(t, '/', second + 1, last);
    SliceAvoids(t, '/', third + 1, second);
    LastIndexIs(t, '/', |t|, last);
    LastIndexIs(t, '/', last, second);
    LastIndexIs(t, '/', second, third);
  }

  /** Every position of a slice that avoids `c` avoids `c`. */
  lemma SliceAvoids(t: string, c: char, lo: int, hi: int)
    requires 0 <= lo <= hi <= |t| && c !in t[lo..hi]
    ensures forall i :: lo <= i < hi ==> t[i] != c
  {
    forall i | lo <= i < hi ensures t[i] != c {
      assert t[i] == t[lo..hi][i - lo];
    }
  }

  /** Conversely, every piece of that shape is kept, with exactly those fields. */
  lemma ParseTokenComplete(t: string, tok: Token, headStr: string)
    requires Shaped(t, tok, headStr)
    ensures ParseToken(t) == Some(tok)
  {
    ShapedSlashes(t, tok, headStr);
    JoinedPieces(tok.word, tok.pos, tok.dep, headStr);
  }

  /** A kept piece holds at least three slashes. */
  lemma KeptHasThreeSlashes(t: string)
    requires ParseToken(t).Some?
    ensures multiset(t)['/'] >= 3
  {
    ParseTokenSound(t);
    var tok := ParseToken(t).value;
    var headStr :| Shaped(t, tok, headStr);
    assert multiset(t) == multiset(tok.word) + multiset("/") + multiset(tok.pos) + multiset("/")
      + multiset(tok.dep) + multiset("/") + multiset(headStr);
  }

  /** What one piece contributes: its image under `f`, or nothing. */
  function Kept<A, B>(x: A, f: A -> Option<B>): seq<B> {
    match f(x)
    case Some(y) => [y]
    case None => []
  }

  /** The images under `f` of the elements it accepts, in their order. */
  function FilterMap<A, B>(xs: seq<A>, f: A -> Option<B>): seq<B>
  {
    if xs == [] then []
    else FilterMap(xs[..|xs| - 1], f) + Kept(xs[|xs| - 1], f)
  }

  lemma FilterMapSnoc<A, B>(xs: seq<A>, f: A -> Option<B>, i: int)
    requires 0 <= i < |xs|
    ensures FilterMap(xs[..i + 1], f) == FilterMap(xs[..i], f) + Kept(xs[i], f)
  {
    assert xs[..i + 1][..i] == xs[..i];
  }

  /** The positions of the elements `f` accepts, in increasing order. */
  function KeptIndices<A, B>(xs: seq<A>, f: A -> Option<B>): seq<int>
  {
    if xs == [] then []
    else
      var n := |xs| - 1;
      KeptIndices(xs[..n], f) + (if f(xs[n]).Some? then [n] else [])
  }

  /** `FilterMap` keeps exactly the accepted elements, in order: its i-th result comes from the
      i-th accepted element, and every accepted element is among them. */
  lemma {:induction false} FilterMapKeepsOrder<A, B>(xs: seq<A>, f: A -> Option<B>)
    ensures |KeptIndices(xs, f)| == |FilterMap(xs, f)|
    ensures forall i, j :: 0 <= i < j < |KeptIndices(xs, f)| ==> KeptIndices(xs, f)[i] < KeptIndices(xs, f)[j]
    ensures forall i :: 0 <= i < |KeptIndices(xs, f)| ==>
      0 <= KeptIndices(xs, f)[i] < |xs| && f(xs[KeptIndices(xs, f)[i]]) == Some(FilterMap(xs, f)[i])
    ensures forall j :: 0 <= j < |xs| && f(xs[j]).Some? ==> j in KeptIndices(xs, f)
  {
    if xs != [] {
      var n := |xs| - 1;
      var init := xs[..n];
      FilterMapKeepsOrder(init, f);
      var ks, ts := KeptIndices(init, f), FilterMap(init, f);
      var K, T := KeptIndices(xs, f), FilterMap(xs, f);
      assert K == ks + (if f(xs[n]).Some? then [n] else []);
      assert T == ts + Kept(xs[n], f);
      forall i | 0 <= i < |K|
        ensures 0 <= K[i] < |xs| && f(xs[K[i]]) == Some(T[i])
      {
        if i < |ks| {
          assert K[i] == ks[i] && T[i] == ts[i] && init[ks[i]] == xs[ks[i]];
        }
      }
      forall j | 0 <= j < |xs| && f(xs[j]).Some?
        ensures j in K
      {
        if j < n {
          assert init[j] == xs[j];
          assert j in ks;
        }
      }
    }
  }

  /** The tokens of the pieces that parse, in their input order. */
  function ParseAll(pieces: seq<string>): seq<Token> {
    FilterMap(pieces, ParseToken)
  }

  /** The body of `parse`'s loop for one piece: cut at the last three slashes, then
      `Integer.parseInt` the head; a `NumberFormatException` skips the piece. */
  method ParsePiece(tokenStr: string) returns (r: Option<Token>)
    ensures r == ParseToken(tokenStr)
  {
    var lastSlash := LastIndexBefore(tokenStr, '/', |tokenStr|);
    var secondLastSlash := if lastSlash == -1 then -1 else LastIndexBefore(tokenStr, '/', lastSlash);
    var thirdLastSlash := if secondLastSlash == -1 then -1 else LastIndexBefore(tokenStr, '/', secondLastSlash);
    if thirdLastSlash == -1 {
      return None;
    }
    assert LastSlashes(tokenStr) == Some(Slashes(thirdLastSlash, secondLastSlash, lastSlash));
    var headStr := tokenStr[lastSlash + 1..];
    var dep := tokenStr[secondLastSlash + 1..lastSlash];
    var pos := tokenStr[thirdLastSlash + 1..secondLastSlash];
    var word := tokenStr[..thirdLastSlash];
    var head := ParseInt(headStr);
    if head.None? {
      return None;
    }
    r := Some(Token(word, pos, dep, head.value));
  }

  /** `parse`: the list-accumulating loop over the `StringTokenizer`'s pieces. */
  method Parse(ngram: string) returns (tokens: seq<Token>)
    ensures tokens == ParseAll(Tokenize(ngram))
  {
    var pieces := Tokenize(ngram);
    tokens := [];
    var i := 0;
    while i < |pieces|
      invariant 0 <= i <= |pieces|
      invariant tokens == ParseAll(pieces[..i])
    {
      var parsed := ParsePiece(pieces[i]);
      FilterMapSnoc(pieces, ParseToken, i);
      assert Kept(pieces[i], ParseToken) == if parsed.Some? then [parsed.value] else [];
      if parsed.Some? {
        tokens := tokens + [parsed.value];
      }
      i := i + 1;
    }
    assert pieces[..i] == pieces;
  }
}
