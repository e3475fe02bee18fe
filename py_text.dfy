/**
 * The few Python `str` operations the audit scripts rely on, with Python's
 * semantics written out: `find` returns -1 when the character is absent,
 * slices accept negative bounds and clamp out-of-range ones, `strip`
 * removes Python's whitespace characters from both ends.
 */
module PyText {

  /** `s.find(c)`: the first index of `c` in `s`, or -1. */
  function Find(s: string, c: char): (r: int)
    ensures -1 <= r < |s|
    ensures r == -1 <==> c !in s
    ensures r >= 0 ==> s[r] == c && c !in s[..r]
  {
    if |s| == 0 then -1
    else if s[0] == c then 0
    else
      var k := Find(s[1..], c);
      if k == -1 then -1
      else
        assert s[..k + 1] == [s[0]] + s[1..][..k];
        k + 1
  }

  /** The first-occurrence property determines `find`. */
  lemma FindIs(s: string, c: char, k: nat)
    requires k < |s| && s[k] == c && c !in s[..k]
    ensures Find(s, c) == k
  {
  }

  /** `find` on a concatenation looks in the left part first. */
  lemma FindConcat(a: string, b: string, c: char)
    ensures Find(a + b, c) == (if c in a then Find(a, c) else if c in b then |a| + Find(b, c) else -1)
  {
    if c in a {
      var k := Find(a, c);
      assert (a + b)[..k] == a[..k];
      FindIs(a + b, c, k);
    } else if c in b {
      var k := Find(b, c);
      assert (a + b)[..|a| + k] == a + b[..k];
      FindIs(a + b, c, |a| + k);
    } else {
      assert c !in a + b;
    }
  }

  /** Cutting a string in two and joining the halves gives it back. */
  lemma CutJoin(s: string, i: nat)
    requires i <= |s|
    ensures s[..i] + s[i..] == s
  {
  }

  /** The three parts of a string made of three, by slicing. */
  lemma ThreeParts(a: string, b: string, c: string)
    ensures (a + b + c)[..|a|] == a && (a + b + c)[..|a| + |b|] == a + b && (a + b + c)[|a| + |b|..] == c
    ensures a + b + c == a + (b + c)
  {
  }

  /** How Python normalises one slice bound against a length `n`. */
  function SliceBound(i: int, n: nat): (r: nat)
    ensures r <= n
    ensures 0 <= i <= n ==> r == i
  {
    if i < 0 then (if i + n < 0 then 0 else i + n)
    else if i > n then n
    else i
  }

  /** `s[lo:hi]` with Python's handling of negative and out-of-range bounds. */
  function Slice(s: string, lo: int, hi: int): (r: string)
    ensures |r| <= |s|
    ensures 0 <= lo <= hi <= |s| ==> r == s[lo..hi]
    ensures hi == |s| && 0 <= lo <= |s| ==> r == s[lo..]
  {
    var a, b := SliceBound(lo, |s|), SliceBound(hi, |s|);
    if a < b then s[a..b] else []
  }

  /**
   * The characters Python's `str.isspace` accepts, which `strip` removes:
   * tab to carriage return, the information separators U+001C-U+001F, the
   * space, U+0085, U+00A0, U+1680, U+2000-U+200A, U+2028, U+2029, U+202F,
   * U+205F and U+3000.
   */
  predicate IsSpace(c: char)
  {
    || c == ' ' || ('\t' <= c <= '\r') || ('\U{1C}' <= c <= '\U{1F}')
    || c == '\U{85}' || c == '\U{A0}' || c == '\U{1680}' || ('\U{2000}' <= c <= '\U{200A}')
    || c == '\U{2028}' || c == '\U{2029}' || c == '\U{202F}' || c == '\U{205F}' || c == '\U{3000}'
  }

  /** `s.lstrip()`: the longest suffix of `s` that does not start with whitespace. */
  function StripStart(s: string): (r: string)
    ensures |r| <= |s| && r == s[|s| - |r|..]
    ensures r == [] || !IsSpace(r[0])
  {
    if |s| > 0 && IsSpace(s[0]) then StripStart(s[1..]) else s
  }

  /** `s.rstrip()`: the longest prefix of `s` that does not end with whitespace. */
  function StripEnd(s: string): (r: string)
    ensures r <= s
    ensures r == [] || !IsSpace(r[|r| - 1])
  {
    if |s| > 0 && IsSpace(s[|s| - 1]) then StripEnd(s[..|s| - 1]) else s
  }

  /** `lstrip` removes only whitespace. */
  lemma {:induction false} StripStartRemovesSpace(s: string)
    ensures forall i :: 0 <= i < |s| - |StripStart(s)| ==> IsSpace(s[i])
    decreases |s|
  {
    if |s| > 0 && IsSpace(s[0]) {
      StripStartRemovesSpace(s[1..]);
    }
  }

  /** `rstrip` removes only whitespace. */
  lemma {:induction false} StripEndRemovesSpace(s: string)
    ensures forall i :: |StripEnd(s)| <= i < |s| ==> IsSpace(s[i])
    decreases |s|
  {
    if |s| > 0 && IsSpace(s[|s| - 1]) {
      StripEndRemovesSpace(s[..|s| - 1]);
    }
  }

  /** `s.strip()`. */
  function Strip(s: string): (r: string)
  {
    StripEnd(StripStart(s))
  }

  /** Stripping never removes a character that is not whitespace. */
  lemma StripKeeps(s: string, i: nat)
    requires i < |s| && !IsSpace(s[i])
    ensures |Strip(s)| > 0
  {
    var t := StripStart(s);
    StripStartRemovesSpace(s);
    assert |s| - |t| <= i;
    var k := i - (|s| - |t|);
    assert t[k] == s[i];
    var u := StripEnd(t);
    StripEndRemovesSpace(t);
    assert k < |u|;
  }

  /** `c.lower()` for the ASCII letters; every other character is unchanged. */
  function LowerChar(c: char): (r: char)
  {
    if 'A' <= c <= 'Z' then (c as int - 'A' as int + 'a' as int) as char else c
  }

  /** `s.lower()`, character by character. */
  function Lower(s: string): string
  {
    seq(|s|, i requires 0 <= i < |s| => LowerChar(s[i]))
  }
}
