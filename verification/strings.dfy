/** Java's `String.contains`, the only string operation the overlay relies on
    besides concatenation. Strings are sequences of characters; there is no
    case folding, so the test is case sensitive as in Java. */
module Strings {

  /** `pre` is a prefix of `s`. */
  predicate IsPrefix(pre: string, s: string)
  {
    |pre| <= |s| && s[..|pre|] == pre
  }

  /** Declarative meaning of "`sub` occurs in `s`": some suffix of `s` starts
      with `sub`. The empty string occurs in every string. */
  ghost predicate Occurs(sub: string, s: string)
  {
    exists k :: 0 <= k <= |s| && IsPrefix(sub, s[k..])
  }

  /** Dropping the first character of `s` loses no occurrence of `sub`, unless
      `s` itself starts with `sub`. */
  lemma OccursStep(sub: string, s: string)
    requires |s| > 0 && !IsPrefix(sub, s)
    ensures Occurs(sub, s) <==> Occurs(sub, s[1..])
  {
    if Occurs(sub, s) {
      var k :| 0 <= k <= |s| && IsPrefix(sub, s[k..]);
      assert k != 0 by { assert s[0..] == s; }
      assert s[1..][k - 1..] == s[k..];
    }
    if Occurs(sub, s[1..]) {
      var k :| 0 <= k <= |s[1..]| && IsPrefix(sub, s[1..][k..]);
      assert s[1..][k..] == s[k + 1..];
    }
  }

  /** `s.contains(sub)`: scans `s` from the left for a position where `sub`
      starts. */
  function Contains(s: string, sub: string): (r: bool)
    ensures r <==> Occurs(sub, s)
    decreases |s|
  {
    if IsPrefix(sub, s) then
      assert s[0..] == s;
      true
    else if |s| == 0 then
      false
    else
      OccursStep(sub, s);
      Contains(s[1..], sub)
  }
}
