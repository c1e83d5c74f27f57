/**
 * The few Python string operations the mapper relies on, over `string`
 * (= seq<char>): str.startswith, str.replace, str.lower (ASCII letters),
 * str.join, str.rstrip / str.lstrip with one character, the slice s[k:]
 * and str() of an integer.
 */
module Text {

  predicate StartsWith(s: string, prefix: string) {
    |prefix| <= |s| && s[..|prefix|] == prefix
  }

  /** Python's slice s[k:]: everything from position k on, "" when s is shorter. */
  function Drop(s: string, k: nat): string {
    if k <= |s| then s[k..] else ""
  }

  /** pat occurs nowhere in s. */
  predicate Free(s: string, pat: string) {
    forall i :: 0 <= i <= |s| - |pat| ==> !StartsWith(s[i..], pat)
  }

  /**
   * Python's s.replace(pat, rep) for a non-empty pat: occurrences are found
   * left to right and do not overlap.
   */
  function Replace(s: string, pat: string, rep: string): string
    requires pat != []
    decreases |s|
  {
    if |s| < |pat| then s
    else if s[..|pat|] == pat then rep + Replace(s[|pat|..], pat, rep)
    else [s[0]] + Replace(s[1..], pat, rep)
  }

  /** Replacing every c by a text without c leaves no c behind. */
  lemma {:induction false} ReplaceRemoves(s: string, c: char, rep: string)
    requires c !in rep
    ensures c !in Replace(s, [c], rep)
    decreases |s|
  {
    if |s| >= 1 {
      ReplaceRemoves(s[1..], c, rep);
    }
  }

  /** A character in neither s nor the replacement is not in the result. */
  lemma {:induction false} ReplaceKeepsOut(s: string, pat: string, rep: string, d: char)
    requires pat != []
    requires d !in s && d !in rep
    ensures d !in Replace(s, pat, rep)
    decreases |s|
  {
    if |s| < |pat| {
    } else if s[..|pat|] == pat {
      assert forall x :: x in s[|pat|..] ==> x in s;
      ReplaceKeepsOut(s[|pat|..], pat, rep, d);
    } else {
      assert forall x :: x in s[1..] ==> x in s;
      ReplaceKeepsOut(s[1..], pat, rep, d);
    }
  }

  /** Without an occurrence of pat, replace changes nothing. */
  lemma {:induction false} ReplaceFree(s: string, pat: string, rep: string)
    requires pat != [] && Free(s, pat)
    ensures Replace(s, pat, rep) == s
    decreases |s|
  {
    if |s| >= |pat| {
      assert s[0..] == s;
      forall i | 0 <= i <= |s[1..]| - |pat|
        ensures !StartsWith(s[1..][i..], pat)
      {
        assert s[1..][i..] == s[i + 1..];
      }
      ReplaceFree(s[1..], pat, rep);
    }
  }

  /**
   * An occurrence of pat cannot straddle a character that pat does not
   * contain, so replacing in a + [c] + b is replacing in a and in b apart.
   */
  lemma {:induction false} ReplaceAround(a: string, c: char, b: string, pat: string, rep: string)
    requires pat != [] && c !in pat
    ensures Replace(a + [c] + b, pat, rep) == Replace(a, pat, rep) + [c] + Replace(b, pat, rep)
    decreases |a|
  {
    if |a| == 0 {
      assert a + [c] + b == [c] + b;
      ReplaceAfter(c, b, pat, rep);
    } else if |a| + 1 + |b| < |pat| {
      ShortUnchanged(a, pat, rep);
      ShortUnchanged(b, pat, rep);
    } else if |pat| <= |a| && a[..|pat|] == pat {
      ReplaceAround(a[|pat|..], c, b, pat, rep);
      ReplaceAroundAtPat(a, c, b, pat, rep);
    } else {
      ReplaceAround(a[1..], c, b, pat, rep);
      ReplaceAroundNoPat(a, c, b, pat, rep);
    }
  }

  lemma ShortUnchanged(s: string, pat: string, rep: string)
    requires pat != [] && |s| < |pat|
    ensures Replace(s, pat, rep) == s
  {
  }

  /** A text that starts with a character pat lacks does not start with pat. */
  lemma ReplaceAfter(c: char, b: string, pat: string, rep: string)
    requires pat != [] && c !in pat
    ensures Replace([c] + b, pat, rep) == [c] + Replace(b, pat, rep)
  {
    var s := [c] + b;
    if |s| < |pat| {
      ShortUnchanged(b, pat, rep);
    } else {
      assert s[..|pat|][0] == c;
      assert s[1..] == b;
    }
  }

  lemma ReplaceAroundAtPat(a: string, c: char, b: string, pat: string, rep: string)
    requires pat != [] && c !in pat
    requires |pat| <= |a| && a[..|pat|] == pat
    requires Replace(a[|pat|..] + [c] + b, pat, rep) == Replace(a[|pat|..], pat, rep) + [c] + Replace(b, pat, rep)
    ensures Replace(a + [c] + b, pat, rep) == Replace(a, pat, rep) + [c] + Replace(b, pat, rep)
  {
    MatchStep(a, c, b, pat, rep);
    ReplaceMatch(a, pat, rep);
    Regroup(rep, Replace(a[|pat|..], pat, rep), [c] + Replace(b, pat, rep));
  }

  lemma MatchStep(a: string, c: char, b: string, pat: string, rep: string)
    requires pat != [] && |pat| <= |a| && a[..|pat|] == pat
    ensures Replace(a + [c] + b, pat, rep) == rep + Replace(a[|pat|..] + [c] + b, pat, rep)
  {
    var s := a + [c] + b;
    assert s[..|pat|] == pat;
    assert s[|pat|..] == a[|pat|..] + [c] + b;
    ReplaceMatch(s, pat, rep);
  }

  lemma ReplaceMatch(s: string, pat: string, rep: string)
    requires pat != [] && |pat| <= |s| && s[..|pat|] == pat
    ensures Replace(s, pat, rep) == rep + Replace(s[|pat|..], pat, rep)
  {
  }

  lemma Regroup(x: string, y: string, z: string)
    ensures x + (y + z) == (x + y) + z
  {
  }

  lemma ReplaceAroundNoPat(a: string, c: char, b: string, pat: string, rep: string)
    requires pat != [] && c !in pat && |a| > 0
    requires |pat| <= |a| + 1 + |b|
    requires !(|pat| <= |a| && a[..|pat|] == pat)
    requires Replace(a[1..] + [c] + b, pat, rep) == Replace(a[1..], pat, rep) + [c] + Replace(b, pat, rep)
    ensures Replace(a + [c] + b, pat, rep) == Replace(a, pat, rep) + [c] + Replace(b, pat, rep)
  {
    HeadStep(a, c, b, pat, rep);
    if |a| < |pat| {
      ShortHead(a, c, b, pat, rep);
    } else {
      ReplaceNoMatch(a, pat, rep);
      LongHead(a, c, b, pat, rep);
    }
  }

  lemma HeadStep(a: string, c: char, b: string, pat: string, rep: string)
    requires pat != [] && c !in pat && |a| > 0
    requires |pat| <= |a| + 1 + |b|
    requires !(|pat| <= |a| && a[..|pat|] == pat)
    ensures Replace(a + [c] + b, pat, rep) == [a[0]] + Replace(a[1..] + [c] + b, pat, rep)
  {
    var s := a + [c] + b;
    if |a| < |pat| {
      NoPatAcrossSeparator(a, c, b, pat);
    } else {
      assert s[..|pat|] == a[..|pat|];
    }
    ReplaceNoMatch(s, pat, rep);
    assert s[1..] == a[1..] + [c] + b;
  }

  lemma ShortHead(a: string, c: char, b: string, pat: string, rep: string)
    requires pat != [] && 0 < |a| < |pat|
    requires Replace(a[1..] + [c] + b, pat, rep) == Replace(a[1..], pat, rep) + [c] + Replace(b, pat, rep)
    ensures [a[0]] + Replace(a[1..] + [c] + b, pat, rep) == Replace(a, pat, rep) + [c] + Replace(b, pat, rep)
  {
    ShortUnchanged(a, pat, rep);
    ShortUnchanged(a[1..], pat, rep);
    assert a == [a[0]] + a[1..];
  }

  lemma LongHead(a: string, c: char, b: string, pat: string, rep: string)
    requires pat != [] && |pat| <= |a|
    requires Replace(a, pat, rep) == [a[0]] + Replace(a[1..], pat, rep)
    requires Replace(a[1..] + [c] + b, pat, rep) == Replace(a[1..], pat, rep) + [c] + Replace(b, pat, rep)
    ensures [a[0]] + Replace(a[1..] + [c] + b, pat, rep) == Replace(a, pat, rep) + [c] + Replace(b, pat, rep)
  {
  }

  lemma ReplaceNoMatch(s: string, pat: string, rep: string)
    requires pat != [] && |pat| <= |s| && s[..|pat|] != pat
    ensures Replace(s, pat, rep) == [s[0]] + Replace(s[1..], pat, rep)
  {
  }

  lemma NoPatAcrossSeparator(a: string, c: char, b: string, pat: string)
    requires c !in pat && |a| < |pat| <= |a| + 1 + |b|
    ensures (a + [c] + b)[..|pat|] != pat
  {
    assert (a + [c] + b)[..|pat|][|a|] == c;
  }

  /** A one-character pattern cannot straddle a split, so replace distributes over +. */
  lemma {:induction false} ReplaceCharSplit(x: string, y: string, c: char, rep: string)
    ensures Replace(x + y, [c], rep) == Replace(x, [c], rep) + Replace(y, [c], rep)
    decreases |x|
  {
    if x == [] {
      assert x + y == y;
    } else {
      ReplaceCharSplit(x[1..], y, c, rep);
      assert (x + y)[1..] == x[1..] + y;
      assert (x + y)[..1] == x[..1];
    }
  }

  lemma {:induction false} ReplaceCharAbsent(s: string, c: char, rep: string)
    requires c !in s
    ensures Replace(s, [c], rep) == s
    decreases |s|
  {
    if s != [] {
      assert forall x :: x in s[1..] ==> x in s;
      ReplaceCharAbsent(s[1..], c, rep);
    }
  }

  predicate IsUpper(c: char) { 'A' <= c <= 'Z' }

  predicate IsLower(c: char) { 'a' <= c <= 'z' }

  function LowerChar(c: char): char {
    if IsUpper(c) then (c as int + 32) as char else c
  }

  /** Python's str.lower, restricted to the ASCII letters. */
  function Lower(s: string): string {
    seq(|s|, i requires 0 <= i < |s| => LowerChar(s[i]))
  }

  /** Lowering leaves no upper-case letter and brings in no character that is not a lower-case letter. */
  lemma LowerMeaning(s: string, d: char)
    ensures d in Lower(s) ==> !IsUpper(d)
    ensures d in Lower(s) && !IsLower(d) ==> d in s
  {
  }

  /** Python's sep.join(parts). */
  function Join(parts: seq<string>, sep: string): string {
    if |parts| == 0 then ""
    else if |parts| == 1 then parts[0]
    else parts[0] + sep + Join(parts[1..], sep)
  }

  /** Python's s.rstrip(c): the longest prefix of s that does not end with c. */
  function RStrip(s: string, c: char): (r: string)
    ensures |r| <= |s| && r == s[..|r|]
    ensures r == [] || r[|r| - 1] != c
    ensures forall i :: |r| <= i < |s| ==> s[i] == c
  {
    if |s| > 0 && s[|s| - 1] == c then RStrip(s[..|s| - 1], c) else s
  }

  /** Python's s.lstrip(c): the longest suffix of s that does not start with c. */
  function LStrip(s: string, c: char): (r: string)
    ensures |r| <= |s| && r == s[|s| - |r|..]
    ensures r == [] || r[0] != c
    ensures forall i :: 0 <= i < |s| - |r| ==> s[i] == c
  {
    if |s| > 0 && s[0] == c then LStrip(s[1..], c) else s
  }

  predicate IsDigit(c: char) { '0' <= c <= '9' }

  function DigitChar(d: nat): char
    requires d < 10
  {
    (48 + d) as char
  }

  /** Python's str(n) for n >= 0: decimal digits, no leading zero. */
  function NatToString(n: nat): (r: string)
    ensures |r| > 0 && forall i :: 0 <= i < |r| ==> IsDigit(r[i])
    ensures r[0] == '0' <==> n == 0
  {
    if n < 10 then [DigitChar(n)] else NatToString(n / 10) + [DigitChar(n % 10)]
  }

  /** Python's str(i) for any integer. */
  function IntToString(i: int): string {
    if i < 0 then "-" + NatToString(-i) else NatToString(i)
  }

  /** The value of a string of decimal digits. */
  function ParseDecimal(s: string): nat
    requires forall i :: 0 <= i < |s| ==> IsDigit(s[i])
  {
    if s == [] then 0
    else
      var d := s[|s| - 1];
      assert IsDigit(d);
      ParseDecimal(s[..|s| - 1]) * 10 + (d as int - '0' as int)
  }

  /** Reading back the decimal text of n gives n, so NatToString is injective. */
  lemma {:induction false} DecimalRoundTrip(n: nat)
    ensures ParseDecimal(NatToString(n)) == n
  {
    if n >= 10 {
      DecimalRoundTrip(n / 10);
      var s := NatToString(n);
      assert s[..|s| - 1] == NatToString(n / 10);
    }
  }

  /**
   * When two texts agree and each ends in sep followed by a part without sep,
   * those final parts agree.
   */
  lemma LastPartAgrees(a: string, x: string, b: string, y: string, sep: char)
    requires sep !in x && sep !in y
    requires a + [sep] + x == b + [sep] + y
    ensures x == y
  {
    var s := a + [sep] + x;
    assert s[|s| - |x| - 1] == sep && s[|s| - |y| - 1] == sep;
    assert forall j :: |s| - |x| <= j < |s| ==> s[j] == x[j - (|s| - |x|)];
    assert forall j :: |s| - |y| <= j < |s| ==> s[j] == y[j - (|s| - |y|)];
    assert |x| == |y|;
    assert x == s[|s| - |x|..] == y;
  }
}
