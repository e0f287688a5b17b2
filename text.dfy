/**
  The few Python `str` operations kroppzeug relies on, written out over
  `seq<char>`: `isspace`, `strip()`, `split(None, 1)`, `lower()` as far as it is
  compared with ASCII keywords, the slice `s[:n]`, and `rjust`/`ljust`.
 */
module Text {

  /** Python's `str.isspace` for one character (Unicode White_Space as CPython defines it). */
  predicate IsSpace(c: char) {
    ('\t' <= c <= '\r') || ('\U{1C}' <= c <= '\U{1F}') || c == ' '
    || c == '\U{85}' || c == '\U{A0}' || c == '\U{1680}'
    || ('\U{2000}' <= c <= '\U{200A}') || c == '\U{2028}' || c == '\U{2029}'
    || c == '\U{202F}' || c == '\U{205F}' || c == '\U{3000}'
  }

  predicate AllSpace(s: string) {
    forall i :: 0 <= i < |s| ==> IsSpace(s[i])
  }

  /** The first position at or after `i` that holds no whitespace (or `|s|`). */
  function SkipSpaces(s: string, i: nat): (j: nat)
    requires i <= |s|
    ensures i <= j <= |s|
    ensures forall k :: i <= k < j ==> IsSpace(s[k])
    ensures j < |s| ==> !IsSpace(s[j])
    decreases |s| - i
  {
    if i == |s| || !IsSpace(s[i]) then i else SkipSpaces(s, i + 1)
  }

  /** The first position at or after `i` that holds whitespace (or `|s|`). */
  function SkipWord(s: string, i: nat): (j: nat)
    requires i <= |s|
    ensures i <= j <= |s|
    ensures forall k :: i <= k < j ==> !IsSpace(s[k])
    ensures j < |s| ==> IsSpace(s[j])
    decreases |s| - i
  {
    if i == |s| || IsSpace(s[i]) then i else SkipWord(s, i + 1)
  }

  /** The end of `s[..j]` once its trailing whitespace is dropped. */
  function SkipSpacesBack(s: string, j: nat): (i: nat)
    requires j <= |s|
    ensures i <= j
    ensures forall k :: i <= k < j ==> IsSpace(s[k])
    ensures 0 < i ==> !IsSpace(s[i - 1])
  {
    if j == 0 || !IsSpace(s[j - 1]) then j else SkipSpacesBack(s, j - 1)
  }

  /** Python's `s.strip()`: `s` without its leading and trailing whitespace. */
  function Strip(s: string): (r: string)
    ensures SkipSpaces(s, 0) + |r| <= |s|
    ensures r == s[SkipSpaces(s, 0)..SkipSpaces(s, 0) + |r|]
    ensures forall k :: SkipSpaces(s, 0) + |r| <= k < |s| ==> IsSpace(s[k])
    ensures r == [] <==> AllSpace(s)
    ensures r != [] ==> !IsSpace(r[0]) && !IsSpace(r[|r| - 1])
  {
    var a := SkipSpaces(s, 0);
    var e := SkipSpacesBack(s, |s|);
    if e <= a then [] else s[a..e]
  }

  /**
    Python's `s.split(None, 1)`: the first whitespace-delimited word and, when
    anything but whitespace follows it, the rest of `s` after the whitespace run
    that ends the word. The rest keeps its own trailing whitespace.
   */
  function SplitOnce(s: string): (parts: seq<string>)
    ensures |parts| <= 2
    ensures parts == [] <==> AllSpace(s)
    ensures forall k :: 0 <= k < |parts| ==> parts[k] != []
    ensures |parts| >= 1 ==> parts[0] == s[SkipSpaces(s, 0)..SkipWord(s, SkipSpaces(s, 0))]
    ensures |parts| >= 1 ==> forall k :: 0 <= k < |parts[0]| ==> !IsSpace(parts[0][k])
    ensures |parts| == 1 ==> forall k :: SkipWord(s, SkipSpaces(s, 0)) <= k < |s| ==> IsSpace(s[k])
    ensures |parts| == 2 ==> SkipWord(s, SkipSpaces(s, 0)) < |s| - |parts[1]|
    ensures |parts| == 2 ==> parts[1] == s[|s| - |parts[1]|..] && !IsSpace(parts[1][0])
    ensures |parts| == 2 ==> forall k :: SkipWord(s, SkipSpaces(s, 0)) <= k < |s| - |parts[1]| ==> IsSpace(s[k])
  {
    var a := SkipSpaces(s, 0);
    var b := SkipWord(s, a);
    var c := SkipSpaces(s, b);
    if a == |s| then []
    else if c == |s| then [s[a..b]]
    else [s[a..b], s[c..]]
  }

  /** A single word splits into itself. */
  lemma SplitOnceOfWord(w: string)
    requires w != [] && forall k :: 0 <= k < |w| ==> !IsSpace(w[k])
    ensures SplitOnce(w) == [w]
  {
    assert SkipSpaces(w, 0) == 0;
    assert SkipWord(w, 0) == |w|;
    assert SkipSpaces(w, |w|) == |w|;
    assert w[0..|w|] == w;
  }

  /**
    Joining an option and a value with one space and splitting the line again
    gives them back, provided the option is one word and the value is already
    stripped: `(k + " " + v).strip().split(None, 1) == [k, v]`.
   */
  lemma SplitOnceOfPair(k: string, v: string)
    requires k != [] && forall i :: 0 <= i < |k| ==> !IsSpace(k[i])
    requires v != [] && !IsSpace(v[0]) && !IsSpace(v[|v| - 1])
    ensures Strip(k + " " + v) == k + " " + v
    ensures SplitOnce(k + " " + v) == [k, v]
  {
    var s := k + " " + v;
    assert s[0] == k[0] && s[|s| - 1] == v[|v| - 1];
    assert SkipSpaces(s, 0) == 0;
    assert SkipSpacesBack(s, |s|) == |s|;
    assert s[0..|s|] == s;
    assert s[|k|] == ' ';
    forall i | 0 <= i < |k| ensures s[i] == k[i] && !IsSpace(s[i]) { }
    assert SkipWord(s, 0) == |k|;
    assert s[|k| + 1] == v[0];
    assert SkipSpaces(s, |k|) == |k| + 1;
    assert s[0..|k|] == k && s[|k| + 1..] == v;
  }

  /** Python's `str.lower` on one character, as far as the result can be ASCII. */
  function LowerChar(c: char): char {
    if 'A' <= c <= 'Z' then (c as int + 32) as char
    else if c == '\U{212A}' then 'k'  // KELVIN SIGN lowercases to a plain 'k'
    else c
  }

  function Lower(s: string): string {
    seq(|s|, i requires 0 <= i < |s| => LowerChar(s[i]))
  }

  predicate IsLowerAscii(k: string) {
    forall i :: 0 <= i < |k| ==> ('a' <= k[i] <= 'z') || (' ' <= k[i] <= '@') || ('[' <= k[i] <= '`') || ('{' <= k[i] <= '~')
  }

  /** The characters that `lower()` maps to the lowercase ASCII character `k`. */
  predicate LowersTo(c: char, k: char) {
    c == k || ('a' <= k <= 'z' && c == (k as int - 32) as char) || (k == 'k' && c == '\U{212A}')
  }

  /**
    Comparing `Lower(s)` with an ASCII keyword is a case-insensitive comparison:
    it holds exactly when each character of `s` is the keyword's character or
    its upper-case form.
   */
  lemma {:induction false} LowerEqualsKeyword(s: string, k: string)
    requires IsLowerAscii(k)
    ensures Lower(s) == k <==> |s| == |k| && forall i :: 0 <= i < |s| ==> LowersTo(s[i], k[i])
  {
    if |s| == |k| && forall i :: 0 <= i < |s| ==> LowersTo(s[i], k[i]) {
      forall i | 0 <= i < |s| ensures Lower(s)[i] == k[i] {
        assert LowersTo(s[i], k[i]);
      }
    }
    if Lower(s) == k {
      forall i | 0 <= i < |s| ensures LowersTo(s[i], k[i]) {
        assert LowerChar(s[i]) == k[i];
      }
    }
  }

  function Min(a: int, b: int): int { if a <= b then a else b }
  function Max(a: int, b: int): int { if a >= b then a else b }

  /** Python's slice `s[:n]`; a negative `n` counts from the end. */
  function PyPrefix(s: string, n: int): (r: string)
    ensures |r| <= |s| && r == s[..|r|]
    ensures n >= 0 ==> |r| == Min(n, |s|)
    ensures n < 0 ==> |r| == Max(0, |s| + n)
  {
    if n >= |s| then s
    else if n >= 0 then s[..n]
    else if |s| + n <= 0 then []
    else s[..|s| + n]
  }

  function Spaces(n: nat): (r: string)
    ensures |r| == n && forall i :: 0 <= i < n ==> r[i] == ' '
  {
    seq(n, i => ' ')
  }

  /** Python's `s.rjust(w)`: `s` padded on the left with spaces up to width `w`. */
  function RJust(s: string, w: int): (r: string)
    ensures |r| == Max(|s|, w)
    ensures r[|r| - |s|..] == s
    ensures forall i :: 0 <= i < |r| - |s| ==> r[i] == ' '
  {
    if |s| >= w then s else Spaces(w - |s|) + s
  }

  /** Python's `s.ljust(w)`: `s` padded on the right with spaces up to width `w`. */
  function LJust(s: string, w: int): (r: string)
    ensures |r| == Max(|s|, w)
    ensures r[..|s|] == s
    ensures forall i :: |s| <= i < |r| ==> r[i] == ' '
  {
    if |s| >= w then s else s + Spaces(w - |s|)
  }
}
