/**
 The few methods of Python's `str` that the storage helpers rely on, written
 as total functions over `string`: `find` (with and without a start
 position), `rfind`, `rstrip` and `strip` with a single-character
 argument, `split(c, 1)` and ASCII `lower`. Each contract characterises the
 result independently of how it is computed.
 */
module PyStr {

  /** True when every character of `s` is `c` (Python: `s == c * len(s)`). */
  predicate AllAre(s: string, c: char) {
    forall k :: 0 <= k < |s| ==> s[k] == c
  }

  /** `s.find(c)`: the index of the first `c` in `s`, or -1 when there is none. */
  function Find(s: string, c: char): (r: int)
    ensures -1 <= r < |s|
    ensures r == -1 <==> c !in s
    ensures r >= 0 ==> s[r] == c && c !in s[..r]
  {
    if s == [] then -1
    else if s[0] == c then 0
    else
      var k := Find(s[1..], c);
      if k == -1 then -1
      else
        assert s[..k + 1] == [s[0]] + s[1..][..k];
        k + 1
  }

  /** `s.find(c, start)`: the first `c` at or after `start`, or -1. */
  function FindFrom(s: string, c: char, start: nat): (r: int)
    ensures r == -1 || (start <= r < |s| && s[r] == c)
    ensures r == -1 ==> start >= |s| || c !in s[start..]
    ensures r >= 0 ==> c !in s[start..r]
  {
    if start > |s| then -1
    else
      var k := Find(s[start..], c);
      if k == -1 then -1
      else
        assert s[start..start + k] == s[start..][..k];
        start + k
  }

  /** `s.rfind(c)`: the index of the last `c` in `s`, or -1 when there is none. */
  function RFind(s: string, c: char): (r: int)
    ensures -1 <= r < |s|
    ensures r == -1 <==> c !in s
    ensures r >= 0 ==> s[r] == c && forall j :: r < j < |s| ==> s[j] != c
  {
    if s == [] then -1
    else if s[|s| - 1] == c then |s| - 1
    else
      var init := s[..|s| - 1];
      assert s == init + [s[|s| - 1]];
      RFind(init, c)
  }

  /** `s.split(c, 1)` when `c` occurs in `s`: the text before the first `c` and the text after it. */
  function SplitOnce(s: string, c: char): (r: (string, string))
    requires c in s
    ensures s == r.0 + [c] + r.1
    ensures c !in r.0
  {
    var i := Find(s, c);
    (s[..i], s[i + 1..])
  }

  /** True when `s` neither starts nor ends with `c`. */
  predicate NoBoundary(s: string, c: char) {
    s == [] || (s[0] != c && s[|s| - 1] != c)
  }

  /** The length of the run of `c` that `s` starts with. */
  function LeadingRun(s: string, c: char): (n: nat)
    ensures n <= |s| && AllAre(s[..n], c)
    ensures n == |s| || s[n] != c
  {
    if s == [] || s[0] != c then 0
    else
      var m := LeadingRun(s[1..], c);
      assert s[..m + 1] == [c] + s[1..][..m];
      m + 1
  }

  /** The length of the run of `c` that `s` ends with. */
  function TrailingRun(s: string, c: char): (n: nat)
    ensures n <= |s| && AllAre(s[|s| - n..], c)
    ensures n == |s| || s[|s| - n - 1] != c
  {
    if s == [] || s[|s| - 1] != c then 0
    else
      var init := s[..|s| - 1];
      var m := TrailingRun(init, c);
      assert s[|s| - (m + 1)..] == init[|init| - m..] + [c];
      m + 1
  }

  /** A run of `c` followed by something else is the leading run. */
  lemma LeadingRunIs(s: string, c: char, n: nat)
    requires n <= |s| && AllAre(s[..n], c)
    requires n == |s| || s[n] != c
    ensures LeadingRun(s, c) == n
  {
    var m := LeadingRun(s, c);
    assert forall k :: 0 <= k < n ==> s[k] == s[..n][k];
    assert forall k :: 0 <= k < m ==> s[k] == s[..m][k];
  }

  /** A run of `c` preceded by something else is the trailing run. */
  lemma TrailingRunIs(s: string, c: char, n: nat)
    requires n <= |s| && AllAre(s[|s| - n..], c)
    requires n == |s| || s[|s| - n - 1] != c
    ensures TrailingRun(s, c) == n
  {
    var m := TrailingRun(s, c);
    assert forall k :: |s| - n <= k < |s| ==> s[k] == s[|s| - n..][k - (|s| - n)];
    assert forall k :: |s| - m <= k < |s| ==> s[k] == s[|s| - m..][k - (|s| - m)];
  }

  /** `s.rstrip(c)`: `s` without its trailing run of `c`. */
  function RStrip(s: string, c: char): (r: string)
    ensures |r| <= |s| && r == s[..|r|]
    ensures AllAre(s[|r|..], c)
    ensures r == [] || r[|r| - 1] != c
  {
    s[..|s| - TrailingRun(s, c)]
  }

  /**
   `s.strip(c)`: `s` without its leading and its trailing run of `c` (the
   same as `s.lstrip(c).rstrip(c)`). The result is the slice of `s` after the
   leading run; it neither starts nor ends with `c`, and everything cut off
   is `c`.
   */
  function Strip(s: string, c: char): (r: string)
    ensures var i := LeadingRun(s, c); i + |r| <= |s| && r == s[i..i + |r|]
    ensures var i := LeadingRun(s, c); AllAre(s[..i], c) && AllAre(s[i + |r|..], c)
    ensures NoBoundary(r, c)
  {
    var i := LeadingRun(s, c);
    if i == |s| then []
    else
      var j := |s| - TrailingRun(s, c);
      assert forall k :: j <= k < |s| ==> s[k] == s[j..][k - j];
      assert i < j;
      assert s[i..j][j - i - 1] == s[j - 1];
      s[i..j]
  }

  /** Whole runs of `c` around a non-empty text without `c` at its ends are what `strip` removes. */
  lemma StripUnique(x: string, pre: string, r: string, post: string, c: char)
    requires x == pre + r + post && r != []
    requires AllAre(pre, c) && AllAre(post, c) && NoBoundary(r, c)
    ensures Strip(x, c) == r
  {
    assert x[..|pre|] == pre;
    assert x[|pre|] == r[0];
    LeadingRunIs(x, c, |pre|);
    assert x[|x| - |post|..] == post;
    assert x[|x| - |post| - 1] == r[|r| - 1];
    TrailingRunIs(x, c, |post|);
    assert x[|pre|..|x| - |post|] == r;
  }

  /** A text made of `c` only strips to nothing. */
  lemma StripAll(x: string, c: char)
    requires AllAre(x, c)
    ensures Strip(x, c) == []
  {
    assert x[..|x|] == x;
    LeadingRunIs(x, c, |x|);
  }

  /** A string that neither starts nor ends with `c` is its own strip. */
  lemma {:induction false} NoBoundaryStripIsIdentity(s: string, c: char)
    requires NoBoundary(s, c)
    ensures Strip(s, c) == s
  {
    if s == [] {
      StripAll(s, c);
    } else {
      assert s == [] + s + [];
      StripUnique(s, [], s, [], c);
    }
  }

  /** Stripping again changes nothing. */
  lemma {:induction false} StripIdempotent(s: string, c: char)
    ensures Strip(Strip(s, c), c) == Strip(s, c)
  {
    NoBoundaryStripIsIdentity(Strip(s, c), c);
  }

  /** One `c` in front of a string that has no `c` at its ends is stripped off, and only it. */
  lemma {:induction false} StripOneLeading(s: string, c: char)
    requires NoBoundary(s, c)
    ensures Strip([c] + s, c) == s
  {
    if s == [] {
      assert [c] + s == [c];
      StripAll([c], c);
    } else {
      assert [c] + s == [c] + s + [];
      StripUnique([c] + s, [c], s, [], c);
    }
  }

  /** Whole runs of `c` around a string without `c` at its ends are what `strip` removes. */
  lemma {:induction false} StripSurrounding(pre: string, s: string, post: string, c: char)
    requires AllAre(pre, c) && AllAre(post, c)
    requires NoBoundary(s, c)
    ensures Strip(pre + s + post, c) == s
  {
    if s == [] {
      var x := pre + s + post;
      assert forall k :: 0 <= k < |x| ==> x[k] == (if k < |pre| then pre[k] else post[k - |pre|]);
      StripAll(x, c);
    } else {
      StripUnique(pre + s + post, pre, s, post, c);
    }
  }

  /** A character absent from `s` is absent from every slice of it. */
  lemma NotInSlice(s: string, c: char, i: nat, j: nat)
    requires i <= j <= |s|
    requires c !in s
    ensures c !in s[i..j]
  {
  }

  /** Stripping `x` keeps a character other than `x` out when it was out. */
  lemma NotInStrip(s: string, x: char, c: char)
    requires c !in s
    ensures c !in Strip(s, x)
  {
    var i := LeadingRun(s, x);
    NotInSlice(s, c, i, i + |Strip(s, x)|);
  }

  /** ASCII lower-casing of one character (Python's `str.lower` on ASCII). */
  function LowerChar(c: char): (r: char)
    ensures 'A' <= c <= 'Z' ==> r as int == c as int + 32
    ensures !('A' <= c <= 'Z') ==> r == c
  {
    if 'A' <= c <= 'Z' then (c as int + 32) as char else c
  }

  /** `s.lower()` on ASCII text: every upper-case letter replaced by its lower-case form. */
  function Lower(s: string): (r: string)
    ensures |r| == |s|
    ensures forall k :: 0 <= k < |s| ==> r[k] == LowerChar(s[k])
  {
    if s == [] then [] else [LowerChar(s[0])] + Lower(s[1..])
  }
}
