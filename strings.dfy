/**
 * The string operations of the Java and Python library that the DIRT code relies on:
 * prefix and suffix tests, ASCII lower-casing, Java's `String.compareTo`, the splitting
 * behaviour of `String.split`, `StringTokenizer` and Python's `str.split()`, and
 * `Integer.parseInt` / `Long.parseLong` / `Long.toString`, plus Java's 64-bit `long`
 * wrap-around.
 */
module Strings {
  import opened Wrappers

  predicate StartsWith(s: string, prefix: string) {
    |prefix| <= |s| && s[..|prefix|] == prefix
  }

  predicate EndsWith(s: string, suffix: string) {
    |suffix| <= |s| && s[|s| - |suffix|..] == suffix
  }

  predicate IsUpper(c: char) {
    'A' <= c <= 'Z'
  }

  function LowerChar(c: char): char {
    if IsUpper(c) then (c as int + 32) as char else c
  }

  /** `String.toLowerCase()` restricted to ASCII letters. */
  function ToLower(s: string): (r: string)
    ensures |r| == |s|
    ensures forall i :: 0 <= i < |s| ==> r[i] == LowerChar(s[i])
  {
    seq(|s|, i requires 0 <= i < |s| => LowerChar(s[i]))
  }

  /** No ASCII upper-case letter occurs in `s`. */
  predicate IsLower(s: string) {
    forall i :: 0 <= i < |s| ==> !IsUpper(s[i])
  }

  lemma ToLowerIsLower(s: string)
    ensures IsLower(ToLower(s))
  {
  }

  lemma LowerPrefix(s: string, k: int)
    requires IsLower(s) && 0 <= k <= |s|
    ensures IsLower(s[..k])
  {
    assert forall i :: 0 <= i < k ==> s[..k][i] == s[i];
  }

  /** Lower-casing introduces no character below `A`. */
  lemma LowerAvoids(s: string, c: char)
    requires c < 'A' && c !in s
    ensures c !in ToLower(s)
  {
    forall i | 0 <= i < |s| ensures ToLower(s)[i] != c {
      assert s[i] != c;
    }
  }

  // ---------------------------------------------------------------------------
  // Java's String.compareTo: the difference of the first differing characters,
  // or the difference of the lengths when one string is a prefix of the other.
  // ---------------------------------------------------------------------------

  function Compare(a: string, b: string): int
  {
    if |a| == 0 || |b| == 0 then |a| - |b|
    else if a[0] != b[0] then a[0] as int - b[0] as int
    else Compare(a[1..], b[1..])
  }

  lemma {:induction false} CompareZeroIff(a: string, b: string)
    ensures Compare(a, b) == 0 <==> a == b
  {
    if |a| == 0 || |b| == 0 {
    } else if a[0] != b[0] {
    } else {
      CompareZeroIff(a[1..], b[1..]);
      assert a == [a[0]] + a[1..] && b == [b[0]] + b[1..];
    }
  }

  lemma {:induction false} CompareAntisymmetric(a: string, b: string)
    ensures Compare(b, a) == -Compare(a, b)
  {
    if |a| == 0 || |b| == 0 {
    } else if a[0] != b[0] {
    } else {
      CompareAntisymmetric(a[1..], b[1..]);
    }
  }

  lemma {:induction false} CompareTransitive(a: string, b: string, c: string)
    requires Compare(a, b) <= 0 && Compare(b, c) <= 0
    ensures Compare(a, c) <= 0
  {
    if |a| == 0 || |b| == 0 || |c| == 0 {
    } else if a[0] != b[0] || b[0] != c[0] {
    } else {
      CompareTransitive(a[1..], b[1..], c[1..]);
    }
  }

  // ---------------------------------------------------------------------------
  // Splitting
  // ---------------------------------------------------------------------------

  /** All fields of `s` between separator characters, empty ones included
      (Java's `split(sep, -1)` for a one-character separator). */
  function SplitAny(s: string, seps: set<char>): (r: seq<string>)
    ensures |r| >= 1
    ensures forall i, j :: 0 <= i < |r| && 0 <= j < |r[i]| ==> r[i][j] !in seps
  {
    if |s| == 0 then [""]
    else
      var rest := SplitAny(s[1..], seps);
      if s[0] in seps then [""] + rest
      else [[s[0]] + rest[0]] + rest[1..]
  }

  /** The fields put back together with `sep` between them. */
  function Join(fields: seq<string>, sep: char): string
    requires |fields| >= 1
  {
    if |fields| == 1 then fields[0] else fields[0] + [sep] + Join(fields[1..], sep)
  }

  /** Joining one more field appends the separator and the field. */
  lemma {:induction false} JoinSnoc(fields: seq<string>, x: string, sep: char)
    requires |fields| >= 1
    ensures Join(fields + [x], sep) == Join(fields, sep) + [sep] + x
  {
    var all := fields + [x];
    assert all[1..] == fields[1..] + [x];
    if |fields| > 1 {
      JoinSnoc(fields[1..], x, sep);
    }
  }

  lemma {:induction false} JoinSplit(s: string, sep: char)
    ensures Join(SplitAny(s, {sep}), sep) == s
  {
    if |s| > 0 {
      JoinSplit(s[1..], sep);
      var rest := SplitAny(s[1..], {sep});
      if s[0] != sep {
        if |rest| == 1 {
        } else {
          assert ([[s[0]] + rest[0]] + rest[1..])[1..] == rest[1..];
        }
      }
    }
  }

  lemma {:induction false} SplitField(w: string, sep: char)
    requires sep !in w
    ensures SplitAny(w, {sep}) == [w]
  {
    if |w| > 0 {
      SplitField(w[1..], sep);
      assert [w[0]] + w[1..] == w;
    }
  }

  lemma {:induction false} SplitFieldThen(w: string, sep: char, rest: string)
    requires sep !in w
    ensures SplitAny(w + [sep] + rest, {sep}) == [w] + SplitAny(rest, {sep})
  {
    if |w| == 0 {
      assert w + [sep] + rest == [sep] + rest;
      assert ([sep] + rest)[1..] == rest;
    } else {
      SplitFieldThen(w[1..], sep, rest);
      var s := w + [sep] + rest;
      assert s[0] == w[0] && s[1..] == w[1..] + [sep] + rest;
      assert [w[0]] + w[1..] == w;
    }
  }

  lemma {:induction false} SplitJoin(fields: seq<string>, sep: char)
    requires |fields| >= 1
    requires forall i :: 0 <= i < |fields| ==> sep !in fields[i]
    ensures SplitAny(Join(fields, sep), {sep}) == fields
  {
    if |fields| == 1 {
      SplitField(fields[0], sep);
    } else {
      SplitJoin(fields[1..], sep);
      SplitFieldThen(fields[0], sep, Join(fields[1..], sep));
      assert [fields[0]] + fields[1..] == fields;
    }
  }

  function DropTrailingEmpty(fields: seq<string>): (r: seq<string>)
    ensures |r| <= |fields| && r == fields[..|r|]
    ensures |r| > 0 ==> r[|r| - 1] != ""
    ensures forall i :: |r| <= i < |fields| ==> fields[i] == ""
  {
    if |fields| > 0 && fields[|fields| - 1] == "" then DropTrailingEmpty(fields[..|fields| - 1])
    else fields
  }

  /** Java's `s.split(sep)` for a one-character separator: the fields, with trailing
      empty fields removed; a string without the separator is its own single field. */
  function JavaSplit(s: string, sep: char): seq<string>
  {
    if sep !in s then [s] else DropTrailingEmpty(SplitAny(s, {sep}))
  }

  lemma JavaSplitJoin(fields: seq<string>, sep: char)
    requires |fields| >= 1 && fields[|fields| - 1] != ""
    requires forall i :: 0 <= i < |fields| ==> sep !in fields[i]
    ensures JavaSplit(Join(fields, sep), sep) == fields
  {
    SplitJoin(fields, sep);
    if |fields| == 1 {
      assert Join(fields, sep) == fields[0];
    } else {
      assert Join(fields, sep)[|fields[0]|] == sep;
    }
  }

  /** A character absent from `s` is absent from every field of it. */
  lemma {:induction false} SplitAnyAvoids(s: string, seps: set<char>, c: char)
    requires c !in s
    ensures forall i :: 0 <= i < |SplitAny(s, seps)| ==> c !in SplitAny(s, seps)[i]
  {
    if |s| > 0 {
      SplitAnyAvoids(s[1..], seps, c);
    }
  }

  /** No field of a Java split contains the separator. */
  lemma JavaSplitAvoids(s: string, sep: char)
    ensures forall i :: 0 <= i < |JavaSplit(s, sep)| ==> sep !in JavaSplit(s, sep)[i]
  {
    if sep in s {
      var f := SplitAny(s, {sep});
      var r := DropTrailingEmpty(f);
      forall i | 0 <= i < |r| ensures sep !in r[i] {
        assert r[i] == f[i];
        forall j | 0 <= j < |f[i]| ensures f[i][j] != sep {
        }
      }
    }
  }

  /** The non-empty fields, in order. */
  function NonEmpty(fields: seq<string>): (r: seq<string>)
    ensures |r| <= |fields|
    ensures forall i :: 0 <= i < |r| ==> r[i] != "" && r[i] in fields
  {
    if fields == [] then []
    else (if fields[0] == "" then [] else [fields[0]]) + NonEmpty(fields[1..])
  }

  /** The tokens a `java.util.StringTokenizer` with delimiter set `" "` yields. */
  function Tokenize(s: string): seq<string>
  {
    NonEmpty(SplitAny(s, {' '}))
  }

  /** The characters for which Python's `str.isspace()` holds, the separators of `split()`. */
  const PY_WHITESPACE: set<char> :=
    {'\t', '\n', '\U{000B}', '\U{000C}', '\r', '\U{001C}', '\U{001D}', '\U{001E}', '\U{001F}', ' ',
     '\U{0085}', '\U{00A0}', '\U{1680}', '\U{2000}', '\U{2001}', '\U{2002}', '\U{2003}', '\U{2004}',
     '\U{2005}', '\U{2006}', '\U{2007}', '\U{2008}', '\U{2009}', '\U{200A}', '\U{2028}', '\U{2029}',
     '\U{202F}', '\U{205F}', '\U{3000}'}

  /** Python's `s.split()` with no argument: the maximal runs of non-whitespace. */
  function PySplit(s: string): (r: seq<string>)
    ensures forall i :: 0 <= i < |r| ==> r[i] != ""
    ensures forall i, j :: 0 <= i < |r| && 0 <= j < |r[i]| ==> r[i][j] !in PY_WHITESPACE
  {
    NonEmpty(SplitAny(s, PY_WHITESPACE))
  }

  /** `split()` read from the front: whitespace is skipped, a non-whitespace character
      followed by non-whitespace starts the first field of the rest, and one followed by
      whitespace or by nothing is a field of its own. With `PySplit("") == []` this
      determines every result: the fields are the maximal non-whitespace runs, in order. */
  lemma PySplitRuns(c: char, s: string)
    ensures PySplit("") == []
    ensures c in PY_WHITESPACE ==> PySplit([c] + s) == PySplit(s)
    ensures c !in PY_WHITESPACE && s != [] && s[0] !in PY_WHITESPACE ==>
      |PySplit(s)| >= 1 && PySplit([c] + s) == [[c] + PySplit(s)[0]] + PySplit(s)[1..]
    ensures c !in PY_WHITESPACE && (s == [] || s[0] in PY_WHITESPACE) ==>
      PySplit([c] + s) == [[c]] + PySplit(s)
  {
    var t := [c] + s;
    assert t[0] == c && t[1..] == s;
    var rest := SplitAny(s, PY_WHITESPACE);
    if c !in PY_WHITESPACE {
      var head := [c] + rest[0];
      assert SplitAny(t, PY_WHITESPACE) == [head] + rest[1..];
      assert ([head] + rest[1..])[1..] == rest[1..];
      assert PySplit(t) == [head] + NonEmpty(rest[1..]);
      if s != [] && s[0] !in PY_WHITESPACE {
        assert rest[0] != "";
        assert rest == [rest[0]] + rest[1..];
        assert PySplit(s) == [rest[0]] + NonEmpty(rest[1..]);
      } else if s == [] {
        assert rest == [""];
        assert head == [c];
      } else {
        assert rest[0] == "";
        assert rest == [rest[0]] + rest[1..];
        assert PySplit(s) == NonEmpty(rest[1..]);
        assert head == [c];
      }
    }
  }

  // ---------------------------------------------------------------------------
  // Integer parsing and printing
  // ---------------------------------------------------------------------------

  const TWO_31: int := 0x8000_0000
  const TWO_63: int := 0x8000_0000_0000_0000
  const TWO_64: int := 0x1_0000_0000_0000_0000

  predicate IsDigit(c: char) {
    '0' <= c <= '9'
  }

  predicate AllDigits(s: string) {
    |s| == 0 || (IsDigit(s[|s| - 1]) && AllDigits(s[..|s| - 1]))
  }

  lemma {:induction false} AllDigitsAt(s: string)
    ensures AllDigits(s) <==> forall i :: 0 <= i < |s| ==> IsDigit(s[i])
  {
    if |s| > 0 {
      AllDigitsAt(s[..|s| - 1]);
      assert forall i :: 0 <= i < |s| - 1 ==> s[..|s| - 1][i] == s[i];
    }
  }

  function DigitsValue(s: string): nat
    requires AllDigits(s)
  {
    if |s| == 0 then 0 else DigitsValue(s[..|s| - 1]) * 10 + (s[|s| - 1] as int - '0' as int)
  }

  /** Java's decimal parsing: an optional sign, at least one ASCII digit, and a value
      within `[lo, hi]`; `None` is a `NumberFormatException`. */
  function ParseBounded(s: string, lo: int, hi: int): (r: Option<int>)
    ensures r.Some? ==> lo <= r.value <= hi
  {
    if |s| == 0 then None
    else
      var digits := if s[0] == '-' || s[0] == '+' then s[1..] else s;
      if |digits| == 0 || !AllDigits(digits) then None
      else
        var v: int := if s[0] == '-' then 0 - DigitsValue(digits) else DigitsValue(digits);
        if lo <= v <= hi then Some(v) else None
  }

  /** `Integer.parseInt`. */
  function ParseInt(s: string): Option<int> {
    ParseBounded(s, -TWO_31, TWO_31 - 1)
  }

  /** `Long.parseLong`. */
  function ParseLong(s: string): Option<int> {
    ParseBounded(s, -TWO_63, TWO_63 - 1)
  }

  /** Nothing that contains a character other than a sign or a digit parses. */
  lemma ParseRejectsNonDigit(s: string, lo: int, hi: int, k: int)
    requires 0 <= k < |s| && !IsDigit(s[k]) && s[k] != '-' && s[k] != '+'
    ensures ParseBounded(s, lo, hi) == None
  {
    if |s| > 0 && (s[0] == '-' || s[0] == '+') {
      assert s[1..][k - 1] == s[k];
      AllDigitsAt(s[1..]);
    } else {
      AllDigitsAt(s);
    }
  }

  function DigitChar(d: int): char
    requires 0 <= d < 10
  {
    ('0' as int + d) as char
  }

  function NatToString(n: nat): (r: string)
    ensures |r| >= 1 && AllDigits(r)
  {
    if n < 10 then [DigitChar(n)]
    else
      var r := NatToString(n / 10) + [DigitChar(n % 10)];
      assert r[..|r| - 1] == NatToString(n / 10);
      r
  }

  /** `Long.toString`: decimal, with a leading `-` for negative values. */
  function IntToString(n: int): string {
    if n < 0 then "-" + NatToString(-n) else NatToString(n)
  }

  /** A printed number is non-empty and made of a sign and digits only. */
  lemma IntToStringShape(n: int, c: char)
    requires c != '-' && !IsDigit(c)
    ensures |IntToString(n)| >= 1 && c !in IntToString(n)
  {
    var d := if n < 0 then NatToString(-n) else NatToString(n);
    AllDigitsAt(d);
    if n < 0 {
      assert IntToString(n) == "-" + d;
    }
  }

  lemma {:induction false} NatToStringValue(n: nat)
    ensures DigitsValue(NatToString(n)) == n
  {
    if n >= 10 {
      NatToStringValue(n / 10);
      var s := NatToString(n / 10) + [DigitChar(n % 10)];
      assert s[..|s| - 1] == NatToString(n / 10);
    }
  }

  /** Parsing what `Long.toString` printed gives the value back. */
  lemma ParseLongToString(n: int)
    requires -TWO_63 <= n < TWO_63
    ensures ParseLong(IntToString(n)) == Some(n)
  {
    if n < 0 {
      var d := NatToString(-n);
      NatToStringValue(-n);
      assert IntToString(n) == "-" + d;
      assert ("-" + d)[0] == '-' && ("-" + d)[1..] == d;
      assert |d| >= 1;
    } else {
      var d := NatToString(n);
      NatToStringValue(n);
      assert d[0] != '-' && d[0] != '+' by {
        AllDigitsAt(d);
        assert IsDigit(d[0]);
      }
    }
  }

  // ---------------------------------------------------------------------------
  // Java `long` arithmetic
  // ---------------------------------------------------------------------------

  predicate IsLong(x: int) {
    -TWO_63 <= x < TWO_63
  }

  /** The two's-complement 64-bit value of `x`, as a Java `long` holds it. */
  function Wrap64(x: int): (r: int)
    ensures IsLong(r)
  {
    (x + TWO_63) % TWO_64 - TWO_63
  }

  lemma WrapOfLong(x: int)
    requires IsLong(x)
    ensures Wrap64(x) == x
  {
  }

  lemma ModShift(x: int, k: int)
    ensures (x + k * TWO_64) % TWO_64 == x % TWO_64
  {
  }

  /** Wrapping an intermediate result does not change the wrapped total. */
  lemma WrapAdd(a: int, b: int)
    ensures Wrap64(Wrap64(a) + b) == Wrap64(a + b)
  {
    var q := (a + TWO_63) / TWO_64;
    assert Wrap64(a) == a - q * TWO_64;
    ModShift(a + b + TWO_63, -q);
  }

  /** Adding a wrapped partial sum to a total that wraps alike wraps to the full total. */
  lemma WrapPartial(a: int, f: int, b: int)
    requires Wrap64(a) == Wrap64(f)
    ensures Wrap64(a + Wrap64(b)) == Wrap64(f + b)
  {
    WrapAdd(b, a);
    WrapAdd(a, b);
    WrapAdd(f, b);
  }

  /** A non-empty sequence is its front followed by its last element. */
  lemma FrontLast<T>(s: seq<T>)
    requires |s| > 0
    ensures s[..|s| - 1] + [s[|s| - 1]] == s
  {
  }

  /** The exact sum of a sequence of integers. */
  function SumOf(s: seq<int>): int
  {
    if s == [] then 0 else SumOf(s[..|s| - 1]) + s[|s| - 1]
  }

  /** One more `long` addition keeps the running sum equal to the wrapped exact sum. */
  lemma WrapStep(vals: seq<int>, v: int)
    ensures Wrap64(Wrap64(SumOf(vals)) + v) == Wrap64(SumOf(vals + [v]))
  {
    assert (vals + [v])[..|vals|] == vals;
    WrapAdd(SumOf(vals), v);
  }

  lemma {:induction false} SumOfAppend(a: seq<int>, b: seq<int>)
    ensures SumOf(a + b) == SumOf(a) + SumOf(b)
  {
    if b != [] {
      SumOfAppend(a, b[..|b| - 1]);
      assert (a + b)[..|a + b| - 1] == a + b[..|b| - 1];
    } else {
      assert a + b == a;
    }
  }
}
