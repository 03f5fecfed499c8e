/**
 * The few Python `str` operations the core relies on: `lower()`, the substring
 * test `a in b`, `split(sep)` and `strip()`.
 */
module Strings {

  // ---------------------------------------------------------------------------
  // str.lower()
  // ---------------------------------------------------------------------------

  predicate IsUpperAscii(c: char) {
    'A' <= c <= 'Z'
  }

  function LowerChar(c: char): char {
    if IsUpperAscii(c) then (c as int + 32) as char else c
  }

  /** `s.lower()`: every ASCII capital becomes its small letter, everything else is kept. */
  function Lower(s: string): (r: string)
    ensures |r| == |s|
    ensures forall i | 0 <= i < |r| :: !IsUpperAscii(r[i])
    ensures forall i | 0 <= i < |r| ::
      if IsUpperAscii(s[i]) then r[i] as int == s[i] as int + 32 else r[i] == s[i]
  {
    seq(|s|, i requires 0 <= i < |s| => LowerChar(s[i]))
  }

  /** Lowering twice is lowering once. */
  lemma LowerIdempotent(s: string)
    ensures Lower(Lower(s)) == Lower(s)
  {
  }

  /** Lowering never creates or removes a character that is not an ASCII letter. */
  lemma LowerKeepsNonLetter(s: string, c: char)
    requires !('A' <= c <= 'Z') && !('a' <= c <= 'z')
    ensures c in Lower(s) <==> c in s
  {
    var r := Lower(s);
    if c in s {
      var i :| 0 <= i < |s| && s[i] == c;
      assert r[i] == c;
    }
    if c in r {
      var i :| 0 <= i < |r| && r[i] == c;
      assert s[i] == c;
    }
  }

  // ---------------------------------------------------------------------------
  // Substring test: Python's `needle in hay` on two strings
  // ---------------------------------------------------------------------------

  predicate IsPrefix(needle: string, hay: string) {
    |needle| <= |hay| && hay[..|needle|] == needle
  }

  /** `needle in hay`, searched from the left. */
  predicate IsInfix(needle: string, hay: string)
    decreases |hay|
  {
    IsPrefix(needle, hay) || (|hay| > 0 && IsInfix(needle, hay[1..]))
  }

  /** The occurrence-based reading of the substring test. */
  ghost predicate OccursAt(needle: string, hay: string, k: int) {
    0 <= k && k + |needle| <= |hay| && hay[k..k + |needle|] == needle
  }

  /** The search agrees with "some slice of `hay` equals `needle`". */
  lemma {:induction false} IsInfixIffOccurs(needle: string, hay: string)
    ensures IsInfix(needle, hay) <==> exists k :: OccursAt(needle, hay, k)
    decreases |hay|
  {
    if IsPrefix(needle, hay) {
      assert OccursAt(needle, hay, 0);
    }
    if |hay| > 0 {
      IsInfixIffOccurs(needle, hay[1..]);
      forall k | OccursAt(needle, hay[1..], k) ensures OccursAt(needle, hay, k + 1) {
        assert hay[1..][k..k + |needle|] == hay[k + 1..k + 1 + |needle|];
      }
      forall k | 0 < k && OccursAt(needle, hay, k) ensures OccursAt(needle, hay[1..], k - 1) {
        assert hay[1..][k - 1..k - 1 + |needle|] == hay[k..k + |needle|];
      }
    }
  }

  /** The empty string is a substring of every string. */
  lemma EmptyIsInfix(hay: string)
    ensures IsInfix("", hay)
  {
    assert IsPrefix("", hay);
  }

  // ---------------------------------------------------------------------------
  // str.split(sep) for a one-character separator
  // ---------------------------------------------------------------------------

  /** Position of the first `c` in `s`. */
  function IndexOf(s: string, c: char): (k: nat)
    requires c in s
    ensures k < |s| && s[k] == c && c !in s[..k]
  {
    if s[0] == c then 0 else 1 + IndexOf(s[1..], c)
  }

  /** The first occurrence is the only position before which `c` does not occur. */
  lemma IndexOfUnique(s: string, c: char, k: nat)
    requires k < |s| && s[k] == c && c !in s[..k]
    ensures IndexOf(s, c) == k
  {
    var j := IndexOf(s, c);
    forall i | 0 <= i < k ensures s[i] != c {
      assert s[..k][i] == s[i];
    }
    forall i | 0 <= i < j ensures s[i] != c {
      assert s[..j][i] == s[i];
    }
  }

  /** `s.split(sep)`: the pieces between consecutive separators, left to right. */
  function Split(s: string, sep: char): (parts: seq<string>)
    ensures |parts| >= 1
    ensures sep in s <==> |parts| >= 2
    ensures forall i | 0 <= i < |parts| :: sep !in parts[i]
    decreases |s|
  {
    if sep !in s then [s]
    else
      var k := IndexOf(s, sep);
      [s[..k]] + Split(s[k + 1..], sep)
  }

  /** `sep.join(parts)`. */
  function Join(parts: seq<string>, sep: char): string {
    if |parts| == 0 then []
    else if |parts| == 1 then parts[0]
    else parts[0] + [sep] + Join(parts[1..], sep)
  }

  /** Splitting loses nothing: joining the pieces again gives back the input. */
  lemma {:induction false} JoinSplit(s: string, sep: char)
    ensures Join(Split(s, sep), sep) == s
    decreases |s|
  {
    if sep in s {
      var k := IndexOf(s, sep);
      var rest := Split(s[k + 1..], sep);
      assert Split(s, sep) == [s[..k]] + rest;
      JoinSplit(s[k + 1..], sep);
      calc {
        Join(Split(s, sep), sep);
        s[..k] + [sep] + Join(rest, sep);
        s[..k] + [s[k]] + s[k + 1..];
        { assert s == s[..k] + [s[k]] + s[k + 1..]; }
        s;
      }
    }
  }

  /** Splitting a string with no separator gives the string itself. */
  lemma SplitNoSeparator(s: string, sep: char)
    requires sep !in s
    ensures Split(s, sep) == [s]
  {
  }

  /** Splitting at the first separator, wherever it is. */
  lemma SplitAtFirst(s: string, sep: char, k: nat)
    requires k < |s| && s[k] == sep && sep !in s[..k]
    ensures Split(s, sep) == [s[..k]] + Split(s[k + 1..], sep)
  {
    IndexOfUnique(s, sep, k);
  }

  /** The first piece of `q + rest` is `q` when `q` holds no separator and `rest` starts with one. */
  lemma SplitFirstPiece(q: string, rest: string, sep: char)
    requires sep !in q
    requires rest == [] || rest[0] == sep
    ensures Split(q + rest, sep)[0] == q
  {
    var t := q + rest;
    if rest == [] {
      assert t == q;
    } else {
      assert t[..|q|] == q;
      SplitAtFirst(t, sep, |q|);
    }
  }

  /**
   * The second piece of `p + sep + q + rest`, where `p` and `q` hold no
   * separator and `rest` is empty or starts with one, is exactly `q`:
   * whatever follows a second separator is not part of it.
   */
  lemma SplitSecondPiece(p: string, q: string, rest: string, sep: char)
    requires sep !in p && sep !in q
    requires rest == [] || rest[0] == sep
    ensures |Split(p + [sep] + q + rest, sep)| >= 2
    ensures Split(p + [sep] + q + rest, sep)[1] == q
  {
    var tail := q + rest;
    var s := p + [sep] + q + rest;
    assert s == p + [sep] + tail;
    assert s[..|p|] == p && s[|p|] == sep && s[|p| + 1..] == tail;
    SplitAtFirst(s, sep, |p|);
    var parts := Split(s, sep);
    var later := Split(tail, sep);
    assert parts == [p] + later;
    SplitFirstPiece(q, rest, sep);
    assert parts[1] == later[0];
  }

  // ---------------------------------------------------------------------------
  // str.strip() with no argument
  // ---------------------------------------------------------------------------

  /**
   * The characters Python's `str.isspace()` accepts, which are the ones
   * `str.strip()` removes: U+0009..U+000D, U+001C..U+0020, U+0085, U+00A0,
   * U+1680, U+2000..U+200A, U+2028, U+2029, U+202F, U+205F and U+3000.
   */
  predicate IsSpace(c: char) {
    var n := c as int;
    (0x09 <= n <= 0x0D) || (0x1C <= n <= 0x20) || n == 0x85 || n == 0xA0 || n == 0x1680
    || (0x2000 <= n <= 0x200A) || n == 0x2028 || n == 0x2029 || n == 0x202F || n == 0x205F
    || n == 0x3000
  }

  predicate AllSpace(s: string) {
    forall i | 0 <= i < |s| :: IsSpace(s[i])
  }

  /** Drops leading white space; what is dropped is all white space. */
  function TrimStart(s: string): (r: string)
    ensures |r| <= |s| && r == s[|s| - |r|..]
    ensures AllSpace(s[..|s| - |r|])
    ensures r == [] || !IsSpace(r[0])
  {
    if |s| > 0 && IsSpace(s[0]) then
      var t := s[1..];
      var r := TrimStart(t);
      assert s[..|s| - |r|] == [s[0]] + t[..|t| - |r|];
      r
    else s
  }

  /** Drops trailing white space; what is dropped is all white space. */
  function TrimEnd(s: string): (r: string)
    ensures |r| <= |s| && r == s[..|r|]
    ensures AllSpace(s[|r|..])
    ensures r == [] || !IsSpace(r[|r| - 1])
  {
    if |s| > 0 && IsSpace(s[|s| - 1]) then
      var t := s[..|s| - 1];
      var r := TrimEnd(t);
      assert s[|r|..] == t[|r|..] + [s[|s| - 1]];
      r
    else s
  }

  /** `s.strip()`: `s` without the white space at either end. */
  function Strip(s: string): (r: string)
    ensures r == [] || (!IsSpace(r[0]) && !IsSpace(r[|r| - 1]))
  {
    TrimEnd(TrimStart(s))
  }

  /** What `TrimStart` drops from the front is all white space. */
  lemma TrimStartCutsSpace(s: string)
    ensures exists w :: s == w + TrimStart(s) && AllSpace(w)
  {
    var t := TrimStart(s);
    var w := s[..|s| - |t|];
    assert s == w + t;
  }

  /** What `TrimEnd` drops from the back is all white space. */
  lemma TrimEndCutsSpace(s: string)
    ensures exists w :: s == TrimEnd(s) + w && AllSpace(w)
  {
    var t := TrimEnd(s);
    var w := s[|t|..];
    assert s == t + w;
  }

  /** `strip()` cuts away only white space: the input is the result with white space around it. */
  lemma StripCutsOnlySpace(s: string)
    ensures exists w1, w2 :: s == w1 + Strip(s) + w2 && AllSpace(w1) && AllSpace(w2)
  {
    var t := TrimStart(s);
    var r := TrimEnd(t);
    TrimStartCutsSpace(s);
    var w1 :| s == w1 + t && AllSpace(w1);
    TrimEndCutsSpace(t);
    var w2 :| t == r + w2 && AllSpace(w2);
    ConcatAssoc(w1, r, w2);
    assert r == Strip(s);
    assert s == w1 + r + w2;
  }

  lemma ConcatAssoc(a: string, b: string, c: string)
    ensures a + b + c == a + (b + c)
  {
  }

  lemma {:induction false} TrimStartAllSpace(w: string)
    requires AllSpace(w)
    ensures TrimStart(w) == []
    decreases |w|
  {
    if |w| > 0 {
      TrimStartAllSpace(w[1..]);
    }
  }

  /** Leading white space does not change what the left trim keeps. */
  lemma {:induction false} TrimStartSpacePrefix(w: string, x: string)
    requires AllSpace(w)
    ensures TrimStart(w + x) == TrimStart(x)
    decreases |w|
  {
    if |w| > 0 {
      assert (w + x)[1..] == w[1..] + x;
      TrimStartSpacePrefix(w[1..], x);
    } else {
      assert w + x == x;
    }
  }

  /** Trailing white space does not change what the right trim keeps. */
  lemma {:induction false} TrimEndSpaceSuffix(x: string, w: string)
    requires AllSpace(w)
    ensures TrimEnd(x + w) == TrimEnd(x)
    decreases |w|
  {
    if |w| > 0 {
      var w' := w[..|w| - 1];
      assert (x + w)[..|x + w| - 1] == x + w';
      TrimEndSpaceSuffix(x, w');
    } else {
      assert x + w == x;
    }
  }

  lemma {:induction false} StripSpaceSuffix(x: string, w: string)
    requires AllSpace(w)
    ensures Strip(x + w) == Strip(x)
    decreases |x|
  {
    if |x| == 0 {
      assert x + w == w;
      TrimStartAllSpace(w);
    } else if IsSpace(x[0]) {
      assert (x + w)[1..] == x[1..] + w;
      StripSpaceSuffix(x[1..], w);
    } else {
      TrimEndSpaceSuffix(x, w);
    }
  }

  /** White space around a string does not change what `strip()` returns. */
  lemma StripIgnoresSurroundingSpace(w1: string, x: string, w2: string)
    requires AllSpace(w1) && AllSpace(w2)
    ensures Strip(w1 + x + w2) == Strip(x)
  {
    assert w1 + x + w2 == w1 + (x + w2);
    TrimStartSpacePrefix(w1, x + w2);
    assert Strip(w1 + x + w2) == Strip(x + w2);
    StripSpaceSuffix(x, w2);
  }

  /** A string with no white space at either end is its own `strip()`. */
  lemma StripTrimmed(s: string)
    requires s == [] || (!IsSpace(s[0]) && !IsSpace(s[|s| - 1]))
    ensures Strip(s) == s
  {
  }
}
