/** The three Python string operations the run command relies on:
    `str.find` for a single character, `str.strip()` with no argument,
    and the substring test `t in s`. */
module PyStr {

  /** The code points Python's `str.isspace` accepts, which are the ones
      `str.strip()` removes when called without an argument: the ASCII
      controls TAB to CR and FS to US, SPACE, NEL, NO-BREAK SPACE, the
      Unicode space separators, and the line and paragraph separators. */
  const Whitespace: set<char> := {
    '\t', '\n', '\U{0B}', '\U{0C}', '\r',
    '\U{1C}', '\U{1D}', '\U{1E}', '\U{1F}', ' ',
    '\U{85}', '\U{A0}', '\U{1680}',
    '\U{2000}', '\U{2001}', '\U{2002}', '\U{2003}', '\U{2004}', '\U{2005}',
    '\U{2006}', '\U{2007}', '\U{2008}', '\U{2009}', '\U{200A}',
    '\U{2028}', '\U{2029}', '\U{202F}', '\U{205F}', '\U{3000}'
  }

  predicate IsSpace(c: char) {
    c in Whitespace
  }

  ghost predicate AllSpace(s: string) {
    forall k :: 0 <= k < |s| ==> IsSpace(s[k])
  }

  /** Neither end of `s` is whitespace. */
  predicate IsTrimmed(s: string) {
    |s| == 0 || (!IsSpace(s[0]) && !IsSpace(s[|s| - 1]))
  }

  /** `t` occurs in `s` starting at index `i`. */
  predicate OccursAt(s: string, t: string, i: int) {
    0 <= i <= |s| - |t| && s[i..i + |t|] == t
  }

  /** `s` is `t` surrounded by whitespace on both sides. */
  ghost predicate IsPadded(s: string, t: string) {
    exists i :: OccursAt(s, t, i) && AllSpace(s[..i]) && AllSpace(s[i + |t|..])
  }

  /** `s.find(c)`: the index of the first `c` in `s`, or -1 when there is none. */
  function Find(s: string, c: char): (r: int)
    ensures -1 <= r < |s|
    ensures r == -1 <==> c !in s
    ensures r >= 0 ==> s[r] == c && c !in s[..r]
  {
    if |s| == 0 then -1
    else if s[0] == c then 0
    else
      var i := Find(s[1..], c);
      if i == -1 then -1
      else
        assert s[..i + 1] == [s[0]] + s[1..][..i];
        i + 1
  }

  /** The end of the run of whitespace in `s` that starts at `i`. */
  function SkipLeading(s: string, i: nat): (r: nat)
    requires i <= |s|
    ensures i <= r <= |s|
    ensures forall k :: i <= k < r ==> IsSpace(s[k])
    ensures r == |s| || !IsSpace(s[r])
    decreases |s| - i
  {
    if i < |s| && IsSpace(s[i]) then SkipLeading(s, i + 1) else i
  }

  /** The start of the run of whitespace in `s[lo..j]` that ends at `j`. */
  function SkipTrailing(s: string, lo: nat, j: nat): (r: nat)
    requires lo <= j <= |s|
    ensures lo <= r <= j
    ensures forall k :: r <= k < j ==> IsSpace(s[k])
    ensures r == lo || !IsSpace(s[r - 1])
    decreases j
  {
    if lo < j && IsSpace(s[j - 1]) then SkipTrailing(s, lo, j - 1) else j
  }

  /** `s.strip()`: the unique trimmed string that `s` pads (see StripUnique). */
  function Strip(s: string): (r: string)
    ensures IsTrimmed(r)
  {
    var i := SkipLeading(s, 0);
    var j := SkipTrailing(s, i, |s|);
    s[i..j]
  }

  /** What `strip()` returns is `s` with whitespace removed from both ends
      only, so every character it keeps comes from `s`. */
  lemma StripPads(s: string)
    ensures IsPadded(s, Strip(s))
    ensures forall k :: 0 <= k < |Strip(s)| ==> Strip(s)[k] in s
  {
    var i := SkipLeading(s, 0);
    var j := SkipTrailing(s, i, |s|);
    assert OccursAt(s, s[i..j], i);
    assert forall k :: 0 <= k < j - i ==> s[i..j][k] == s[i + k];
  }

  /** `t in s` for strings: `t` occurs somewhere in `s`. */
  function Contains(s: string, t: string): (r: bool)
    ensures r <==> exists i :: OccursAt(s, t, i)
    decreases |s|
  {
    if |s| < |t| then false
    else if s[..|t|] == t then
      assert OccursAt(s, t, 0);
      true
    else
      var r := Contains(s[1..], t);
      assert !OccursAt(s, t, 0);
      ShiftOccurrence(s, t);
      if r then
        var j :| OccursAt(s[1..], t, j);
        assert OccursAt(s, t, j + 1);
        r
      else
        r
  }

  lemma ShiftOccurrence(s: string, t: string)
    requires |s| > 0
    ensures forall i :: 0 < i ==> (OccursAt(s, t, i) <==> OccursAt(s[1..], t, i - 1))
  {
    forall i | 0 < i
      ensures OccursAt(s, t, i) <==> OccursAt(s[1..], t, i - 1)
    {
      if i <= |s| - |t| {
        assert s[1..][i - 1..i - 1 + |t|] == s[i..i + |t|];
      }
    }
  }

  /** `strip()` recovers a trimmed string from any whitespace padding around it. */
  lemma StripUnique(pre: string, t: string, post: string)
    requires AllSpace(pre) && AllSpace(post) && IsTrimmed(t)
    ensures Strip(pre + t + post) == t
  {
    var s := pre + t + post;
    var i := SkipLeading(s, 0);
    var j := SkipTrailing(s, i, |s|);
    if t == [] {
      assert forall k :: 0 <= k < |s| ==> IsSpace(s[k]) by {
        forall k | 0 <= k < |s|
          ensures IsSpace(s[k])
        {
          if k < |pre| {
            assert s[k] == pre[k];
          } else {
            assert s[k] == post[k - |pre|];
          }
        }
      }
    } else {
      assert s[|pre|] == t[0];
      assert s[|pre| + |t| - 1] == t[|t| - 1];
      assert i == |pre|;
      assert j == |pre| + |t|;
    }
    assert s[i..j] == t;
  }

  /** Stripping twice is stripping once. */
  lemma StripIdempotent(s: string)
    ensures Strip(Strip(s)) == Strip(s)
  {
    var t := Strip(s);
    assert [] + t + [] == t;
    StripUnique([], t, []);
  }
}
